/** Five-field schedules (internal/sched/cron.go), with the 64-bit arithmetic of the stepping loop. */
module Cron {
  import opened Optional
  import opened Text
  import opened Decimal

  const MAX64: int := 0x7FFF_FFFF_FFFF_FFFF
  const WRAP: int := 0x1_0000_0000_0000_0000

  // ---- reading one part of a field ----

  /** White space that `strings.TrimSpace` removes, as far as it is ASCII or Latin-1. */
  predicate IsSpace(c: char) {
    c == ' ' || '\t' <= c <= '\r' || c == '\U{85}' || c == '\U{A0}'
  }

  function TrimSpace(s: string): string {
    if s != "" && IsSpace(s[0]) then TrimSpace(s[1..])
    else if s != "" && IsSpace(s[|s| - 1]) then TrimSpace(s[..|s| - 1])
    else s
  }

  /** `strings.Cut(s, sep)` when `sep` occurs. */
  function Before(s: string, sep: char): string
    requires sep in s
  {
    if s[0] == sep then "" else [s[0]] + Before(s[1..], sep)
  }

  function After(s: string, sep: char): string
    requires sep in s
  {
    if s[0] == sep then s[1..] else After(s[1..], sep)
  }

  /** `strconv.Atoi`: an optional sign, digits, and the range of a 64-bit int. */
  function Atoi(s: string): (n: Option<int>)
    ensures n.Some? ==> -MAX64 - 1 <= n.value <= MAX64
  {
    var negative := s != "" && s[0] == '-';
    var body := if s != "" && (s[0] == '-' || s[0] == '+') then s[1..] else s;
    if body == "" || !AllDigits(body) then None
    else
      var magnitude: int := Value(body);
      var n := if negative then -magnitude else magnitude;
      if -MAX64 - 1 <= n <= MAX64 then Some(n) else None
  }

  /** One comma-separated part: start, start + step, start + 2 step, ... up to end. */
  datatype Part = Part(start: int, end: int, step: int)

  /** What a part writes, or nothing when `parseField` refuses it. */
  function ReadPart(text: string, min: int, max: int): (p: Option<Part>)
    ensures p.Some? ==> min <= p.value.start <= p.value.end <= max && 0 < p.value.step <= MAX64
  {
    var part := TrimSpace(text);
    if part == "" then None
    else
      var step := if '/' in part then Atoi(After(part, '/')) else Some(1);
      if step.None? || step.value <= 0 then None
      else
        var base := if '/' in part then Before(part, '/') else part;
        var bounds := ReadBounds(base, min, max);
        if bounds.None? || bounds.value.0 < min || bounds.value.1 > max || bounds.value.0 > bounds.value.1 then None
        else Some(Part(bounds.value.0, bounds.value.1, step.value))
  }

  function ReadBounds(base: string, min: int, max: int): Option<(int, int)> {
    if base == "*" then Some((min, max))
    else if '-' in base then
      var a, b := Atoi(TrimSpace(Before(base, '-'))), Atoi(TrimSpace(After(base, '-')));
      if a.None? || b.None? then None else Some((a.value, b.value))
    else
      var n := Atoi(base);
      if n.None? then None else Some((n.value, n.value))
  }

  // ---- stepping ----

  /** Field ranges are small; this bound is all the arithmetic below needs of them. */
  predicate SmallField(min: int, max: int) {
    0 <= min <= max <= 1000
  }

  predicate InLoop(v: int, p: Part) {
    && 0 <= p.start <= p.end <= 1000 && 0 < p.step <= MAX64
    && (p.step <= MAX64 - 1000 ==> v >= 0)
    && (p.step > MAX64 - 1000 ==> -2000 < v <= MAX64 || (v < 0 && -2000 < v + p.step <= 1000))
  }

  /** `v += step` on a 64-bit int. */
  function Add64(v: int, step: int): int {
    if v + step > MAX64 then v + step - WRAP else v + step
  }

  function Measure(v: int, p: Part): int {
    if p.step <= MAX64 - 1000 then p.end - v
    else if v > -2000 then 2 * v + 4001
    else 2 * (v + p.step) + 4002
  }

  lemma LoopAdvances(v: int, p: Part)
    requires InLoop(v, p) && v <= p.end
    ensures InLoop(Add64(v, p.step), p)
    ensures Measure(v, p) >= 0
    ensures Add64(v, p.step) <= p.end ==> 0 <= Measure(Add64(v, p.step), p) < Measure(v, p)
  {
  }

  function Append(out: seq<int>, v: int): seq<int> {
    if v in out then out else out + [v]
  }

  /** The values the stepping loop leaves in the list, started at `v`. */
  function Stepped(out: seq<int>, v: int, p: Part): seq<int>
    requires InLoop(v, p)
    decreases if v <= p.end then Measure(v, p) + 1 else 0
  {
    if v > p.end then out
    else
      LoopAdvances(v, p);
      Stepped(Append(out, v), Add64(v, p.step), p)
  }

  /** All the parts of a field, one after the other. */
  function Collected(out: seq<int>, parts: seq<Part>): seq<int>
    requires forall i :: 0 <= i < |parts| ==> InLoop(parts[i].start, parts[i])
    decreases |parts|
  {
    if parts == [] then out else Collected(Stepped(out, parts[0].start, parts[0]), parts[1..])
  }

  lemma PartInLoop(text: string, min: int, max: int)
    requires SmallField(min, max)
    ensures var p := ReadPart(text, min, max); p.Some? ==> InLoop(p.value.start, p.value)
  {
    hide ReadPart;
  }

  lemma PartsCons(texts: seq<string>, min: int, max: int, p: Part, rest: seq<Part>)
    requires texts != [] && |rest| == |texts| - 1 && ReadPart(texts[0], min, max) == Some(p) && InLoop(p.start, p)
    requires forall i :: 0 <= i < |rest| ==> ReadPart(texts[1..][i], min, max) == Some(rest[i]) && InLoop(rest[i].start, rest[i])
    ensures var ps := [p] + rest;
      forall i :: 0 <= i < |texts| ==> ReadPart(texts[i], min, max) == Some(ps[i]) && InLoop(ps[i].start, ps[i])
  {
    hide ReadPart, InLoop;
    forall i | 0 <= i < |texts|
      ensures ReadPart(texts[i], min, max) == Some(([p] + rest)[i]) && InLoop(([p] + rest)[i].start, ([p] + rest)[i])
    {
      if i > 0 { assert texts[i] == texts[1..][i - 1]; }
    }
  }

  /** The parts of a field, when every one of them is accepted. */
  function ReadParts(texts: seq<string>, min: int, max: int): (ps: Option<seq<Part>>)
    requires SmallField(min, max)
    ensures ps.Some? ==> |ps.value| == |texts|
    ensures ps.Some? ==> forall i :: 0 <= i < |texts| ==> ReadPart(texts[i], min, max) == Some(ps.value[i])
    ensures ps.Some? ==> forall i :: 0 <= i < |texts| ==> InLoop(ps.value[i].start, ps.value[i])
  {
    if texts == [] then Some([])
    else
      var p, rest := ReadPart(texts[0], min, max), ReadParts(texts[1..], min, max);
      PartInLoop(texts[0], min, max);
      if p.None? || rest.None? then None
      else
        PartsCons(texts, min, max, p.value, rest.value);
        Some([p.value] + rest.value)
  }

  lemma PartsFrom(texts: seq<string>, i: nat, min: int, max: int)
    requires SmallField(min, max) && i < |texts|
    ensures var p, here, rest := ReadPart(texts[i], min, max), ReadParts(texts[i..], min, max), ReadParts(texts[i + 1..], min, max);
      && (here.Some? <==> p.Some? && rest.Some?)
      && (here.Some? ==> InLoop(p.value.start, p.value) && here.value == [p.value] + rest.value)
      && (p.Some? ==> InLoop(p.value.start, p.value))
  {
    hide ReadPart, InLoop;
    PartInLoop(texts[i], min, max);
    assert texts[i..][0] == texts[i] && texts[i..][1..] == texts[i + 1..];
  }

  lemma NoParts(out: seq<int>, none: seq<string>, min: int, max: int)
    requires SmallField(min, max) && none == []
    ensures ReadParts(none, min, max) == Some([]) && Collected(out, []) == out
  {
  }

  lemma CollectedFrom(out: seq<int>, p: Part, rest: seq<Part>)
    requires InLoop(p.start, p) && forall i :: 0 <= i < |rest| ==> InLoop(rest[i].start, rest[i])
    ensures forall i :: 0 <= i < |[p] + rest| ==> InLoop(([p] + rest)[i].start, ([p] + rest)[i])
    ensures Collected(out, [p] + rest) == Collected(Stepped(out, p.start, p), rest)
  {
    hide InLoop, Stepped;
    assert ([p] + rest)[1..] == rest;
  }

  /** `parseField`. */
  method ParseField(field: string, min: int, max: int) returns (r: Option<seq<int>>)
    requires SmallField(min, max)
    ensures var parts := ReadParts(Split(field, ','), min, max);
      r == if parts.None? then None else Some(Collected([], parts.value))
  {
    hide Split, ReadPart, ReadParts, Collected;
    var texts := Split(field, ',');
    var out: seq<int> := [];
    var seen: map<int, bool> := map[];
    ghost var parts := ReadParts(texts, min, max);
    var i := 0;
    assert texts[0..] == texts;
    while i < |texts|
      invariant 0 <= i <= |texts|
      invariant forall v :: v in seen <==> v in out
      invariant ReadParts(texts[i..], min, max).None? <==> parts.None?
      invariant parts.Some? ==> Collected(out, ReadParts(texts[i..], min, max).value) == Collected([], parts.value)
    {
      PartsFrom(texts, i, min, max);
      var p := ReadPart(texts[i], min, max);
      if p.None? { return None; }
      var part := p.value;
      var v := part.start;
      ghost var before := out;
      while v <= part.end
        invariant InLoop(v, part)
        invariant forall x :: x in seen <==> x in out
        invariant Stepped(out, v, part) == Stepped(before, part.start, part)
        decreases if v <= part.end then Measure(v, part) + 1 else 0
      {
        LoopAdvances(v, part);
        if v !in seen {
          seen := seen[v := true];
          out := out + [v];
        }
        v := Add64(v, part.step);
      }
      if parts.Some? { CollectedFrom(before, part, ReadParts(texts[i + 1..], min, max).value); }
      i := i + 1;
    }
    NoParts(out, texts[|texts|..], min, max);
    r := Some(out);
  }

  // ---- what a field denotes ----

  predicate Denotes(p: Part, v: int) {
    p.step > 0 && p.start <= v <= p.end && (v - p.start) % p.step == 0
  }

  predicate Unique(vs: seq<int>) {
    forall i, j :: 0 <= i < j < |vs| ==> vs[i] != vs[j]
  }

  /** The loop reaches its end without the counter wrapping around. */
  predicate Fits(p: Part) {
    p.start + p.step <= MAX64
  }

  lemma {:induction false} SteppedKeeps(out: seq<int>, v: int, p: Part)
    requires InLoop(v, p)
    ensures Unique(out) ==> Unique(Stepped(out, v, p))
    ensures forall x :: x in out ==> x in Stepped(out, v, p)
    decreases if v <= p.end then Measure(v, p) + 1 else 0
  {
    if v <= p.end {
      LoopAdvances(v, p);
      SteppedKeeps(Append(out, v), Add64(v, p.step), p);
    }
  }

  lemma MulAtLeast(k: int, step: int)
    requires k >= 1 && step > 0
    ensures k * step >= step
  {
  }

  lemma UniqueQuotient(q: int, r: int, q': int, r': int, step: int)
    requires 0 <= r < step && 0 <= r' < step && q * step + r == q' * step + r'
    ensures q == q' && r == r'
  {
    assert (q - q') * step == r' - r && (q' - q) * step == r - r';
    if q > q' {
      MulAtLeast(q - q', step);
    } else if q < q' {
      MulAtLeast(q' - q, step);
    }
  }

  lemma DivMod(a: int, step: int)
    requires step > 0
    ensures a == (a / step) * step + a % step && 0 <= a % step < step
  {
  }

  lemma MultipleStep(d: int, step: int)
    requires step > 0
    ensures (d + step) % step == d % step
    ensures 0 < d < step ==> d % step != 0
  {
    DivMod(d, step);
    DivMod(d + step, step);
    assert (d / step + 1) * step == (d / step) * step + step;
    UniqueQuotient(d / step + 1, d % step, (d + step) / step, (d + step) % step, step);
    if 0 < d < step { UniqueQuotient(0, d, d / step, d % step, step); }
  }

  /** Without wrap-around the loop adds exactly the multiples from where it stands. */
  lemma {:induction false} SteppedDenotes(out: seq<int>, v: int, p: Part, x: int)
    requires InLoop(v, p) && Fits(p) && p.start <= v && (v - p.start) % p.step == 0
    ensures x in Stepped(out, v, p) <==> x in out || (v <= x && Denotes(p, x))
    decreases if v <= p.end then Measure(v, p) + 1 else 0
  {
    if v <= p.end {
      LoopAdvances(v, p);
      assert v + p.step <= MAX64 by {
        if p.step > MAX64 - 1000 && v != p.start { MultipleStep(v - p.start, p.step); }
      }
      MultipleStep(v - p.start, p.step);
      SteppedDenotes(Append(out, v), v + p.step, p, x);
      if Denotes(p, x) && v <= x < v + p.step {
        NoMultipleBetween(v - p.start, x - p.start, p.step);
      }
    }
  }

  lemma NoMultipleBetween(a: int, b: int, step: int)
    requires step > 0 && a % step == 0 && b % step == 0 && a <= b < a + step
    ensures a == b
  {
    DivMod(a, step);
    DivMod(b, step);
    UniqueQuotient(a / step, b - a, b / step, 0, step);
  }

  /** A step large enough to wrap leaves a negative value in the list. */
  lemma WrapLeavesNegative(out: seq<int>, p: Part)
    requires InLoop(p.start, p) && !Fits(p)
    ensures Add64(p.start, p.step) < 0 && Add64(p.start, p.step) in Stepped(out, p.start, p)
  {
    var next := Add64(p.start, p.step);
    LoopAdvances(p.start, p);
    LoopAdvances(next, p);
    var out' := Append(Append(out, p.start), next);
    SteppedKeeps(out', Add64(next, p.step), p);
    assert next in out';
  }

  lemma {:induction false} CollectedKeeps(out: seq<int>, parts: seq<Part>)
    requires forall i :: 0 <= i < |parts| ==> InLoop(parts[i].start, parts[i])
    ensures Unique(out) ==> Unique(Collected(out, parts))
    ensures forall x :: x in out ==> x in Collected(out, parts)
    decreases |parts|
  {
    if parts != [] {
      SteppedKeeps(out, parts[0].start, parts[0]);
      CollectedKeeps(Stepped(out, parts[0].start, parts[0]), parts[1..]);
    }
  }

  /** The list is the union of what the parts denote, with nothing repeated. */
  lemma {:induction false} CollectedDenotes(out: seq<int>, parts: seq<Part>, x: int)
    requires forall i :: 0 <= i < |parts| ==> InLoop(parts[i].start, parts[i]) && Fits(parts[i])
    ensures x in Collected(out, parts) <==> x in out || exists i :: 0 <= i < |parts| && Denotes(parts[i], x)
    decreases |parts|
  {
    if parts != [] {
      assert (parts[0].start - parts[0].start) % parts[0].step == 0;
      SteppedDenotes(out, parts[0].start, parts[0], x);
      CollectedDenotes(Stepped(out, parts[0].start, parts[0]), parts[1..], x);
      assert forall i :: 1 <= i < |parts| ==> parts[i] == parts[1..][i - 1];
      assert forall i :: 0 <= i < |parts| - 1 ==> parts[1..][i] == parts[i + 1];
    }
  }

  lemma {:induction false} CollectedWraps(out: seq<int>, parts: seq<Part>, k: nat) returns (x: int)
    requires forall i :: 0 <= i < |parts| ==> InLoop(parts[i].start, parts[i])
    requires k < |parts| && !Fits(parts[k])
    ensures x < 0 && x in Collected(out, parts)
    decreases |parts|
  {
    var first := Stepped(out, parts[0].start, parts[0]);
    if k == 0 {
      WrapLeavesNegative(out, parts[0]);
      CollectedKeeps(first, parts[1..]);
      x := Add64(parts[0].start, parts[0].step);
    } else {
      x := CollectedWraps(first, parts[1..], k - 1);
    }
  }

  predicate Holds(parts: seq<Part>, x: int) {
    exists i :: 0 <= i < |parts| && Denotes(parts[i], x)
  }

  /**
   A field that is accepted yields a list without repetition. The list stays in range, and is
   the union of the stepped ranges written, if and only if no part's first step overflows.
   */
  lemma FieldMeaning(texts: seq<string>, min: int, max: int)
    requires SmallField(min, max) && ReadParts(texts, min, max).Some?
    ensures var parts := ReadParts(texts, min, max).value;
      var out := Collected([], parts);
      && Unique(out)
      && ((forall x :: x in out ==> min <= x <= max) <==> forall i :: 0 <= i < |parts| ==> Fits(parts[i]))
      && ((forall i :: 0 <= i < |parts| ==> Fits(parts[i])) ==> forall x :: x in out <==> Holds(parts, x))
  {
    var parts := ReadParts(texts, min, max).value;
    var out := Collected([], parts);
    CollectedKeeps([], parts);
    forall i | 0 <= i < |parts| ensures min <= parts[i].start <= parts[i].end <= max {
      assert ReadPart(texts[i], min, max) == Some(parts[i]);
    }
    if forall i :: 0 <= i < |parts| ==> Fits(parts[i]) {
      forall x ensures x in out <==> Holds(parts, x) {
        CollectedDenotes([], parts, x);
      }
    } else {
      var k :| 0 <= k < |parts| && !Fits(parts[k]);
      var x := CollectedWraps([], parts, k);
    }
  }

  // ---- matching an instant ----

  datatype Schedule = Schedule(minutes: seq<int>, hours: seq<int>, days: seq<int>, months: seq<int>, weekdays: seq<int>)

  datatype Moment = Moment(minute: int, hour: int, day: int, month: int, weekday: int)

  /** `Matches`. */
  predicate Matches(s: Schedule, t: Moment) {
    if t.minute !in s.minutes || t.hour !in s.hours || t.month !in s.months then false
    else
      var dayRestricted, weekRestricted := |s.days| < 31, |s.weekdays| < 7;
      if dayRestricted && weekRestricted then t.day in s.days || t.weekday in s.weekdays
      else if dayRestricted then t.day in s.days
      else if weekRestricted then t.weekday in s.weekdays
      else true
  }

  lemma RemoveOne(vs: seq<int>, k: nat)
    requires Unique(vs) && k < |vs|
    ensures var rest := vs[..k] + vs[k + 1..];
      Unique(rest) && |rest| == |vs| - 1 && forall x :: x in rest <==> x in vs && x != vs[k]
  {
    var rest := vs[..k] + vs[k + 1..];
    forall x | x in vs && x != vs[k] ensures x in rest {
      var i :| 0 <= i < |vs| && vs[i] == x;
      if i < k { assert rest[i] == x; } else { assert rest[i - 1] == x; }
    }
    forall j | 0 <= j < |rest| ensures rest[j] in vs && rest[j] != vs[k] {
      assert rest[j] == vs[if j < k then j else j + 1];
    }
    forall i, j | 0 <= i < j < |rest| ensures rest[i] != rest[j] {
      assert rest[i] == vs[if i < k then i else i + 1] && rest[j] == vs[if j < k then j else j + 1];
    }
  }

  lemma {:induction false} CountInterval(vs: seq<int>, low: int, n: nat)
    requires Unique(vs) && forall x :: x in vs ==> low <= x < low + n
    ensures |vs| <= n
    ensures |vs| == n <==> forall x :: low <= x < low + n ==> x in vs
    decreases n
  {
    var top := low + n - 1;
    assert vs != [] ==> vs[0] in vs;
    if n == 0 {
      assert vs == [];
    } else if top in vs {
      var k :| 0 <= k < |vs| && vs[k] == top;
      var rest := vs[..k] + vs[k + 1..];
      RemoveOne(vs, k);
      CountInterval(rest, low, n - 1);
      if |vs| == n {
        forall x | low <= x < low + n ensures x in vs {
          if x != top { assert x in rest; }
        }
      } else {
        var x :| low <= x < low + n - 1 && x !in rest;
        assert x !in vs;
      }
    } else {
      CountInterval(vs, low, n - 1);
      assert |vs| < n && low <= top < low + n;
    }
  }

  /** A duplicate-free list that holds a whole interval is at least as long as the interval. */
  lemma {:induction false} CoverCount(vs: seq<int>, low: int, n: nat)
    requires Unique(vs) && forall x :: low <= x < low + n ==> x in vs
    ensures |vs| >= n
    decreases n
  {
    if n > 0 {
      var top := low + n - 1;
      assert top in vs;
      var k :| 0 <= k < |vs| && vs[k] == top;
      RemoveOne(vs, k);
      CoverCount(vs[..k] + vs[k + 1..], low, n - 1);
    }
  }

  // ---- the either-day rule ----

  /** One field: its list, the values it is meant to hold, and its range. */
  datatype Side = Side(list: seq<int>, meant: set<int>, low: int, high: int)

  /** The values meant lie in the range and are listed once, and there is one. */
  predicate Lists(a: Side) {
    && Unique(a.list) && a.low <= a.high && (exists x :: x in a.meant)
    && forall x :: x in a.meant ==> a.low <= x <= a.high && x in a.list
  }

  predicate InSide(a: Side, x: int) {
    a.low <= x <= a.high
  }

  /** The field leaves something out. */
  ghost predicate LeavesOut(a: Side) {
    exists x :: InSide(a, x) && x !in a.meant
  }

  /** No value of the list that lies in the range is one the field does not mean. */
  predicate NoStrays(a: Side) {
    forall x :: x in a.list && InSide(a, x) ==> x in a.meant
  }

  /** The length of the list tells whether something is missing from it. */
  ghost predicate CountTells(a: Side) {
    |a.list| > a.high - a.low ==> forall x :: InSide(a, x) ==> x in a.list
  }

  /** The rule for day and weekday: one is enough when both leave something out, otherwise both must hold. */
  ghost predicate EitherRule(a: Side, b: Side, x: int, y: int) {
    if LeavesOut(a) && LeavesOut(b) then x in a.meant || y in b.meant else x in a.meant && y in b.meant
  }

  /** What `Matches` does for them: it counts. */
  predicate EitherLoop(a: Side, b: Side, x: int, y: int) {
    var restricted, other := |a.list| <= a.high - a.low, |b.list| <= b.high - b.low;
    if restricted && other then x in a.list || y in b.list
    else if restricted then x in a.list
    else if other then y in b.list
    else true
  }

  lemma FullIsLong(a: Side)
    requires Lists(a)
    ensures !LeavesOut(a) ==> |a.list| > a.high - a.low
    ensures |a.list| <= a.high - a.low ==> exists x :: InSide(a, x) && x !in a.list
  {
    if !LeavesOut(a) { CoverCount(a.list, a.low, a.high - a.low + 1); }
    if forall x :: InSide(a, x) ==> x in a.list { CoverCount(a.list, a.low, a.high - a.low + 1); }
  }

  /** Lists without strays, whose length tells what is missing, follow the rule. */
  lemma FollowsRule(a: Side, b: Side, x: int, y: int)
    requires Lists(a) && Lists(b) && InSide(a, x) && InSide(b, y)
    requires NoStrays(a) && CountTells(a) && NoStrays(b) && CountTells(b)
    ensures EitherLoop(a, b, x, y) <==> EitherRule(a, b, x, y)
  {
    FullIsLong(a);
    FullIsLong(b);
  }

  ghost function SomeLeftOut(a: Side): (x: int)
    requires a.low <= a.high
    ensures InSide(a, x) && (LeavesOut(a) ==> x !in a.meant)
  {
    LeftOutFrom(a, a.low)
  }

  ghost function LeftOutFrom(a: Side, from: int): (x: int)
    requires InSide(a, from) && forall z :: a.low <= z < from ==> z in a.meant
    ensures InSide(a, x) && (LeavesOut(a) ==> x !in a.meant)
    decreases a.high - from
  {
    if from !in a.meant || from == a.high then from else LeftOutFrom(a, from + 1)
  }

  /** A stray, or a length that hides a gap, breaks the rule somewhere, whatever the other list. */
  lemma BreaksRule(a: Side, b: Side) returns (x: int, y: int)
    requires Lists(a) && Lists(b) && !(NoStrays(a) && CountTells(a))
    ensures InSide(a, x) && InSide(b, y) && EitherLoop(a, b, x, y) != EitherRule(a, b, x, y)
  {
    FullIsLong(a);
    FullIsLong(b);
    assert LeavesOut(a) by {
      if !NoStrays(a) {
        var z :| z in a.list && InSide(a, z) && z !in a.meant;
      } else {
        var z :| InSide(a, z) && z !in a.list;
      }
    }
    x, y := SomeLeftOut(a), SomeLeftOut(b);
    if |a.list| <= a.high - a.low {
      x :| x in a.list && InSide(a, x) && x !in a.meant;
    } else if |b.list| <= b.high - b.low {
      x :| x in a.meant;
      y :| InSide(b, y) && y !in b.list;
    }
  }

  lemma RuleIsSymmetric(a: Side, b: Side, x: int, y: int)
    ensures EitherLoop(a, b, x, y) == EitherLoop(b, a, y, x) && EitherRule(a, b, x, y) == EitherRule(b, a, y, x)
  {
  }

  // ---- whole schedules ----

  /** What an expression is meant to say: the values of each of its fields. */
  datatype Meaning = Meaning(minutes: set<int>, hours: set<int>, days: set<int>, months: set<int>, weekdays: set<int>)

  function Minutes(s: Schedule, m: Meaning): Side { Side(s.minutes, m.minutes, 0, 59) }
  function Hours(s: Schedule, m: Meaning): Side { Side(s.hours, m.hours, 0, 23) }
  function Days(s: Schedule, m: Meaning): Side { Side(s.days, m.days, 1, 31) }
  function Months(s: Schedule, m: Meaning): Side { Side(s.months, m.months, 1, 12) }
  function Weekdays(s: Schedule, m: Meaning): Side { Side(s.weekdays, m.weekdays, 0, 6) }

  /** The rule: minute, hour and month are always required, and day and weekday as they are restricted. */
  ghost predicate EitherDay(s: Schedule, m: Meaning, t: Moment) {
    && t.minute in m.minutes && t.hour in m.hours && t.month in m.months
    && EitherRule(Days(s, m), Weekdays(s, m), t.day, t.weekday)
  }

  predicate InCalendar(t: Moment) {
    0 <= t.minute <= 59 && 0 <= t.hour <= 23 && 1 <= t.day <= 31 && 1 <= t.month <= 12 && 0 <= t.weekday <= 6
  }

  /** Of all the moments there are, the schedule matches exactly those the rule names. */
  ghost predicate Agrees(s: Schedule, m: Meaning) {
    forall t: Moment :: InCalendar(t) ==> (Matches(s, t) <==> EitherDay(s, m, t))
  }

  predicate ListsAll(s: Schedule, m: Meaning) {
    Lists(Minutes(s, m)) && Lists(Hours(s, m)) && Lists(Days(s, m)) && Lists(Months(s, m)) && Lists(Weekdays(s, m))
  }

  ghost predicate NoStraysAtAll(s: Schedule, m: Meaning) {
    && NoStrays(Minutes(s, m)) && NoStrays(Hours(s, m)) && NoStrays(Days(s, m)) && NoStrays(Months(s, m))
    && NoStrays(Weekdays(s, m))
  }

  lemma MatchesByLoop(s: Schedule, m: Meaning, t: Moment)
    ensures Matches(s, t) <==>
      && t.minute in s.minutes && t.hour in s.hours && t.month in s.months
      && EitherLoop(Days(s, m), Weekdays(s, m), t.day, t.weekday)
  {
  }

  /** A moment of values that are meant, which both the program and the rule accept. */
  lemma Sample(s: Schedule, m: Meaning) returns (t: Moment)
    requires ListsAll(s, m)
    ensures InCalendar(t) && Matches(s, t) && EitherDay(s, m, t)
    ensures t.minute in m.minutes && t.hour in m.hours && t.day in m.days && t.month in m.months && t.weekday in m.weekdays
  {
    var minute :| minute in Minutes(s, m).meant;
    var hour :| hour in Hours(s, m).meant;
    var day :| day in Days(s, m).meant;
    var month :| month in Months(s, m).meant;
    var weekday :| weekday in Weekdays(s, m).meant;
    t := Moment(minute, hour, day, month, weekday);
    SampleMatches(s, m, t);
    MatchesByLoop(s, m, t);
  }

  lemma SampleMatches(s: Schedule, m: Meaning, t: Moment)
    requires ListsAll(s, m) && t.day in m.days && t.weekday in m.weekdays
    ensures EitherLoop(Days(s, m), Weekdays(s, m), t.day, t.weekday)
  {
  }

  lemma StrayShows(s: Schedule, m: Meaning) returns (t: Moment)
    requires ListsAll(s, m)
    requires !NoStrays(Minutes(s, m)) || !NoStrays(Hours(s, m)) || !NoStrays(Months(s, m))
    ensures InCalendar(t) && Matches(s, t) && !EitherDay(s, m, t)
  {
    t := Sample(s, m);
    SampleMatches(s, m, t);
    if x :| x in s.minutes && 0 <= x <= 59 && x !in m.minutes {
      t := t.(minute := x);
    } else if x :| x in s.hours && 0 <= x <= 23 && x !in m.hours {
      t := t.(hour := x);
    } else {
      var x :| x in s.months && 1 <= x <= 12 && x !in m.months;
      t := t.(month := x);
    }
    MatchesByLoop(s, m, t);
  }

  lemma DayPartShows(s: Schedule, m: Meaning) returns (t: Moment)
    requires ListsAll(s, m)
    requires !(NoStrays(Days(s, m)) && CountTells(Days(s, m)) && NoStrays(Weekdays(s, m)) && CountTells(Weekdays(s, m)))
    ensures InCalendar(t) && Matches(s, t) != EitherDay(s, m, t)
  {
    hide EitherLoop, EitherRule, Matches;
    t := Sample(s, m);
    var x, y;
    if !(NoStrays(Days(s, m)) && CountTells(Days(s, m))) {
      x, y := BreaksRule(Days(s, m), Weekdays(s, m));
    } else {
      y, x := BreaksRule(Weekdays(s, m), Days(s, m));
      RuleIsSymmetric(Days(s, m), Weekdays(s, m), x, y);
    }
    t := t.(day := x, weekday := y);
    MatchesByLoop(s, m, t);
  }

  /**
   Exactly when a schedule says what it means: it agrees with the rule at every moment if and only
   if none of its lists holds a value in range that is not meant, and the lengths of the day and
   weekday lists tell whether something is missing from them.
   */
  lemma MatchesExactly(s: Schedule, m: Meaning)
    requires ListsAll(s, m)
    ensures Agrees(s, m) <==> NoStraysAtAll(s, m) && CountTells(Days(s, m)) && CountTells(Weekdays(s, m))
  {
    hide Matches, EitherDay;
    if NoStraysAtAll(s, m) && CountTells(Days(s, m)) && CountTells(Weekdays(s, m)) {
      forall t: Moment | InCalendar(t) ensures Matches(s, t) <==> EitherDay(s, m, t) {
        RuleFollowed(s, m, t);
      }
    } else if !NoStrays(Minutes(s, m)) || !NoStrays(Hours(s, m)) || !NoStrays(Months(s, m)) {
      var t := StrayShows(s, m);
    } else {
      var t := DayPartShows(s, m);
    }
  }

  lemma RuleFollowed(s: Schedule, m: Meaning, t: Moment)
    requires ListsAll(s, m) && InCalendar(t)
    requires NoStraysAtAll(s, m) && CountTells(Days(s, m)) && CountTells(Weekdays(s, m))
    ensures Matches(s, t) <==> EitherDay(s, m, t)
  {
    hide EitherLoop, EitherRule, Matches, CountTells;
    FollowsRule(Days(s, m), Weekdays(s, m), t.day, t.weekday);
    MatchesByLoop(s, m, t);
  }

  // ---- from text ----

  /** What `parseField` makes of a field. */
  function FieldValues(field: string, min: int, max: int): Option<seq<int>>
    requires SmallField(min, max)
  {
    var parts := ReadParts(Split(field, ','), min, max);
    if parts.None? then None else Some(Collected([], parts.value))
  }

  /** A value is written in the field: some part of it denotes the value. */
  predicate Writes(field: string, min: int, max: int, v: int)
    requires SmallField(min, max)
  {
    var parts := ReadParts(Split(field, ','), min, max);
    parts.Some? && Holds(parts.value, v)
  }

  function Written(field: string, min: int, max: int): set<int>
    requires SmallField(min, max)
  {
    set v | min <= v <= max && Writes(field, min, max, v)
  }

  /** Every part of the field takes its first step without overflow. */
  predicate FieldFits(field: string, min: int, max: int)
    requires SmallField(min, max)
  {
    var parts := ReadParts(Split(field, ','), min, max);
    parts.Some? && forall i :: 0 <= i < |parts.value| ==> Fits(parts.value[i])
  }

  /** Overflow or not, a part lists every value it denotes: with a step that overflows that is its start alone. */
  lemma SteppedLists(out: seq<int>, p: Part, x: int)
    requires InLoop(p.start, p) && Denotes(p, x)
    ensures x in Stepped(out, p.start, p)
  {
    if Fits(p) {
      assert (p.start - p.start) % p.step == 0;
      SteppedDenotes(out, p.start, p, x);
    } else {
      if x != p.start { MultipleStep(x - p.start, p.step); }
      LoopAdvances(p.start, p);
      SteppedKeeps(Append(out, p.start), Add64(p.start, p.step), p);
      assert p.start in Append(out, p.start);
    }
  }

  lemma {:induction false} CollectedLists(out: seq<int>, parts: seq<Part>, i: nat, x: int)
    requires forall i :: 0 <= i < |parts| ==> InLoop(parts[i].start, parts[i])
    requires i < |parts| && Denotes(parts[i], x)
    ensures x in Collected(out, parts)
    decreases |parts|
  {
    var first := Stepped(out, parts[0].start, parts[0]);
    if i == 0 {
      SteppedLists(out, parts[0], x);
      CollectedKeeps(first, parts[1..]);
    } else {
      CollectedLists(first, parts[1..], i - 1, x);
    }
  }

  lemma FirstStartWritten(field: string, min: int, max: int)
    requires SmallField(min, max) && FieldValues(field, min, max).Some?
    ensures ReadParts(Split(field, ','), min, max).value[0].start in Written(field, min, max)
  {
    hide ReadParts, Split, Collected;
    var texts := Split(field, ',');
    var parts := ReadParts(texts, min, max).value;
    assert ReadPart(texts[0], min, max) == Some(parts[0]);
    assert Denotes(parts[0], parts[0].start);
  }

  /** An accepted field lists what it writes, once, and writes something; and without overflow nothing else. */
  lemma FieldLists(field: string, min: int, max: int)
    requires SmallField(min, max) && FieldValues(field, min, max).Some?
    ensures var a := Side(FieldValues(field, min, max).value, Written(field, min, max), min, max);
      Lists(a) && (FieldFits(field, min, max) ==> NoStrays(a) && CountTells(a))
  {
    hide ReadPart, ReadParts, Collected, Split;
    var texts := Split(field, ',');
    var parts := ReadParts(texts, min, max).value;
    var vs := FieldValues(field, min, max).value;
    FieldMeaning(texts, min, max);
    FirstStartWritten(field, min, max);
    forall x | x in Written(field, min, max) ensures x in vs {
      var i :| 0 <= i < |parts| && Denotes(parts[i], x);
      CollectedLists([], parts, i, x);
    }
    if FieldFits(field, min, max) { CountInterval(vs, min, max - min + 1); }
  }

  /** `ParseCron` on the five fields of an expression: minute, hour, day, month, weekday. */
  method ParseCron(fields: seq<string>) returns (r: Option<Schedule>)
    ensures r.Some? <==>
      && |fields| == 5
      && FieldValues(fields[0], 0, 59).Some? && FieldValues(fields[1], 0, 23).Some? && FieldValues(fields[2], 1, 31).Some?
      && FieldValues(fields[3], 1, 12).Some? && FieldValues(fields[4], 0, 6).Some?
    ensures r.Some? ==>
      r.value == Schedule(FieldValues(fields[0], 0, 59).value, FieldValues(fields[1], 0, 23).value,
                          FieldValues(fields[2], 1, 31).value, FieldValues(fields[3], 1, 12).value,
                          FieldValues(fields[4], 0, 6).value)
  {
    hide ReadParts, Collected;
    if |fields| != 5 { return None; }
    var minutes := ParseField(fields[0], 0, 59);
    if minutes.None? { return None; }
    var hours := ParseField(fields[1], 0, 23);
    if hours.None? { return None; }
    var days := ParseField(fields[2], 1, 31);
    if days.None? { return None; }
    var months := ParseField(fields[3], 1, 12);
    if months.None? { return None; }
    var weekdays := ParseField(fields[4], 0, 6);
    if weekdays.None? { return None; }
    r := Some(Schedule(minutes.value, hours.value, days.value, months.value, weekdays.value));
  }

  function MeaningOf(fields: seq<string>): Meaning
    requires |fields| == 5
  {
    Meaning(Written(fields[0], 0, 59), Written(fields[1], 0, 23), Written(fields[2], 1, 31), Written(fields[3], 1, 12),
            Written(fields[4], 0, 6))
  }

  predicate AllFit(fields: seq<string>)
    requires |fields| == 5
  {
    && FieldFits(fields[0], 0, 59) && FieldFits(fields[1], 0, 23) && FieldFits(fields[2], 1, 31)
    && FieldFits(fields[3], 1, 12) && FieldFits(fields[4], 0, 6)
  }

  /** What `ParseCron` makes of an expression it accepts. */
  ghost predicate Parsed(fields: seq<string>, s: Schedule) {
    && |fields| == 5
    && FieldValues(fields[0], 0, 59) == Some(s.minutes) && FieldValues(fields[1], 0, 23) == Some(s.hours)
    && FieldValues(fields[2], 1, 31) == Some(s.days) && FieldValues(fields[3], 1, 12) == Some(s.months)
    && FieldValues(fields[4], 0, 6) == Some(s.weekdays)
  }

  /**
   From the text of an accepted expression to the moments it matches: they are the ones written, by
   the either-day rule, if and only if overflow has put no unwritten value of its range into any
   list, and has not made the day or the weekday list as long as a complete one. Without overflow
   that is always so.
   */
  lemma ExpressionMeaning(fields: seq<string>, s: Schedule)
    requires Parsed(fields, s)
    ensures var m := MeaningOf(fields);
      && (Agrees(s, m) <==> NoStraysAtAll(s, m) && CountTells(Days(s, m)) && CountTells(Weekdays(s, m)))
      && (AllFit(fields) ==> Agrees(s, m))
  {
    hide FieldFits, FieldValues, Written, Agrees, Lists, NoStrays, CountTells;
    FieldLists(fields[0], 0, 59);
    FieldLists(fields[1], 0, 23);
    FieldLists(fields[2], 1, 31);
    FieldLists(fields[3], 1, 12);
    FieldLists(fields[4], 0, 6);
    MatchesExactly(s, MeaningOf(fields));
  }

  /** The values of a list that lie in its range. */
  function InRangeOf(vs: seq<int>, low: int, high: int): set<int> {
    set x | x in vs && low <= x <= high
  }

  predicate HoldsOne(vs: seq<int>, low: int, high: int) {
    exists x :: x in vs && low <= x <= high
  }

  lemma HoldsOneMeant(vs: seq<int>, low: int, high: int)
    requires HoldsOne(vs, low, high)
    ensures exists x :: x in InRangeOf(vs, low, high)
  {
    var x :| x in vs && low <= x <= high;
    assert x in InRangeOf(vs, low, high);
  }

  function OwnMeaning(s: Schedule): Meaning {
    Meaning(InRangeOf(s.minutes, 0, 59), InRangeOf(s.hours, 0, 23), InRangeOf(s.days, 1, 31), InRangeOf(s.months, 1, 12),
            InRangeOf(s.weekdays, 0, 6))
  }

  /**
   The either-day rule on the lists alone, whatever they hold besides: a schedule whose lists each
   hold a value of their range matches by it at every moment if and only if fewer than 31 days, and
   fewer than 7 weekdays, are listed whenever one is missing.
   */
  lemma EitherDayRule(s: Schedule)
    requires Unique(s.minutes) && Unique(s.hours) && Unique(s.days) && Unique(s.months) && Unique(s.weekdays)
    requires HoldsOne(s.minutes, 0, 59) && HoldsOne(s.hours, 0, 23) && HoldsOne(s.days, 1, 31) && HoldsOne(s.months, 1, 12)
    requires HoldsOne(s.weekdays, 0, 6)
    ensures Agrees(s, OwnMeaning(s)) <==>
      && (|s.days| < 31 <==> exists d :: 1 <= d <= 31 && d !in s.days)
      && (|s.weekdays| < 7 <==> exists w :: 0 <= w <= 6 && w !in s.weekdays)
  {
    hide Agrees, HoldsOne;
    var m := OwnMeaning(s);
    HoldsOneMeant(s.minutes, 0, 59);
    HoldsOneMeant(s.hours, 0, 23);
    HoldsOneMeant(s.days, 1, 31);
    HoldsOneMeant(s.months, 1, 12);
    HoldsOneMeant(s.weekdays, 0, 6);
    MatchesExactly(s, m);
    CoversOrNot(Days(s, m));
    CoversOrNot(Weekdays(s, m));
  }

  lemma CoversOrNot(a: Side)
    requires Unique(a.list) && a.low <= a.high
    ensures CountTells(a) <==> (|a.list| <= a.high - a.low <==> exists x :: a.low <= x <= a.high && x !in a.list)
  {
    if forall x :: a.low <= x <= a.high ==> x in a.list { CoverCount(a.list, a.low, a.high - a.low + 1); }
  }
}
