/** What the wrap-around of the stepping loop does to schedules that users can write. */
module CronOverflow {
  import opened Text
  import opened Decimal
  import opened Optional
  import opened Cron

  const HUGE: string := "9223372036854775807"

  // ---- reading the text ----

  lemma ValueJoin(a: string, b: string)
    requires AllDigits(a) && AllDigits(b)
    ensures AllDigits(a + b) && Value(a + b) == Value(a) * Pow10(|b|) + Value(b)
    decreases |b|
  {
    if b == "" {
      assert a + b == a;
    } else {
      var s := a + b;
      ValueJoin(a, b[..|b| - 1]);
      assert s[..|s| - 1] == a + b[..|b| - 1];
      assert Pow10(|b|) == 10 * Pow10(|b| - 1);
      TimesTen(Value(a), Pow10(|b| - 1));
    }
  }

  lemma TimesTen(a: nat, p: nat)
    ensures 10 * (a * p) == a * (10 * p)
  {
  }

  lemma DigitValue(c: char)
    requires IsDigit(c)
    ensures AllDigits([c]) && Value([c]) == c as int - '0' as int
  {
    assert [c][..0] == "";
  }

  lemma Append(a: string, c: char)
    requires AllDigits(a) && IsDigit(c)
    ensures AllDigits(a + [c]) && Value(a + [c]) == 10 * Value(a) + (c as int - '0' as int)
  {
    var s := a + [c];
    assert s[..|s| - 1] == a;
  }

  lemma ThreeDigits(a: char, b: char, c: char)
    requires IsDigit(a) && IsDigit(b) && IsDigit(c)
    ensures AllDigits([a, b, c])
    ensures Value([a, b, c]) == 100 * (a as int - '0' as int) + 10 * (b as int - '0' as int) + (c as int - '0' as int)
  {
    DigitValue(a);
    Append([a], b);
    Append([a, b], c);
    assert [a] + [b] == [a, b] && [a, b] + [c] == [a, b, c];
  }

  lemma NextThree(a: string, b: char, c: char, d: char)
    requires AllDigits(a) && IsDigit(b) && IsDigit(c) && IsDigit(d)
    ensures AllDigits(a + [b, c, d])
    ensures Value(a + [b, c, d])
      == 1000 * Value(a) + 100 * (b as int - '0' as int) + 10 * (c as int - '0' as int) + (d as int - '0' as int)
  {
    ThreeDigits(b, c, d);
    ValueJoin(a, [b, c, d]);
    assert Pow10(3) == 1000;
  }

  lemma HugeValue()
    ensures AllDigits(HUGE) && Value(HUGE) == MAX64
  {
    hide Value, Pow10, AllDigits;
    DigitValue('9');
    NextThree("9", '2', '2', '3');
    assert "9" + ['2', '2', '3'] == "9223";
    NextThree("9223", '3', '7', '2');
    assert "9223" + ['3', '7', '2'] == "9223372";
    NextThree("9223372", '0', '3', '6');
    assert "9223372" + ['0', '3', '6'] == "9223372036";
    NextThree("9223372036", '8', '5', '4');
    assert "9223372036" + ['8', '5', '4'] == "9223372036854";
    NextThree("9223372036854", '7', '7', '5');
    assert "9223372036854" + ['7', '7', '5'] == "9223372036854775";
    NextThree("9223372036854775", '8', '0', '7');
    assert "9223372036854775" + ['8', '0', '7'] == HUGE;
  }

  /** The text is the largest 64-bit integer. */
  lemma HugeIsMax()
    ensures Atoi(HUGE) == Some(MAX64)
  {
    hide Value, AllDigits;
    HugeValue();
    assert HUGE[0] == '9';
  }

  lemma {:induction false} CutAt(head: string, sep: char, tail: string)
    requires sep !in head
    ensures var s := head + [sep] + tail; sep in s && Before(s, sep) == head && After(s, sep) == tail
  {
    var s := head + [sep] + tail;
    if head == "" {
      assert s[1..] == tail;
    } else {
      assert s[1..] == head[1..] + [sep] + tail;
      CutAt(head[1..], sep, tail);
      assert head == [head[0]] + head[1..];
    }
  }

  lemma TrimmedAlready(s: string)
    requires s != "" && !IsSpace(s[0]) && !IsSpace(s[|s| - 1])
    ensures TrimSpace(s) == s
  {
  }

  lemma StarPart(min: int, max: int)
    requires SmallField(min, max)
    ensures ReadPart("*/" + HUGE, min, max) == Some(Part(min, max, MAX64))
  {
    var s := "*/" + HUGE;
    assert |HUGE| == 19 && s[|s| - 1] == '7';
    TrimmedAlready(s);
    assert s == "*" + ['/'] + HUGE;
    CutAt("*", '/', HUGE);
    HugeIsMax();
  }

  lemma PlainStar(min: int, max: int)
    requires SmallField(min, max)
    ensures ReadPart("*", min, max) == Some(Part(min, max, 1))
  {
    TrimmedAlready("*");
  }

  lemma ZeroPart(max: int)
    requires SmallField(0, max)
    ensures ReadPart("0", 0, max) == Some(Part(0, 0, 1))
  {
    TrimmedAlready("0");
    DigitValue('0');
  }

  lemma RangePart()
    ensures ReadPart("1-29", 1, 31) == Some(Part(1, 29, 1))
  {
    TrimmedAlready("1-29");
    CutAt("1", '-', "29");
    assert "1" + ['-'] + "29" == "1-29";
    TrimmedAlready("1");
    TrimmedAlready("29");
    DigitValue('1');
    DigitValue('2');
    Append("2", '9');
    assert "2" + ['9'] == "29";
  }

  // ---- stepping ----

  function Interval(low: int, high: int): (vs: seq<int>)
    requires low <= high + 1
    ensures |vs| == high - low + 1 && forall i :: 0 <= i < |vs| ==> vs[i] == low + i
  {
    seq(high - low + 1, i => low + i)
  }

  lemma {:induction false} StepByOne(p: Part, v: int)
    requires InLoop(p.start, p) && p.step == 1 && p.start <= v <= p.end + 1
    ensures InLoop(v, p) && Stepped(Interval(p.start, v - 1), v, p) == Interval(p.start, p.end)
    decreases p.end + 1 - v
  {
    if v <= p.end {
      StepByOne(p, v + 1);
      assert v !in Interval(p.start, v - 1);
      assert Interval(p.start, v - 1) + [v] == Interval(p.start, v);
    }
  }

  lemma WholeRange(p: Part)
    requires InLoop(p.start, p) && p.step == 1
    ensures Stepped([], p.start, p) == Interval(p.start, p.end)
  {
    StepByOne(p, p.start);
    assert Interval(p.start, p.start - 1) == [];
  }

  /** Started at 1, the largest step leaves two negative values, and nothing else new. */
  lemma HugeSteps(out: seq<int>)
    requires forall x :: x in out ==> x >= 0
    ensures InLoop(1, Part(1, 31, MAX64))
    ensures Stepped(out, 1, Part(1, 31, MAX64)) == (if 1 in out then out else out + [1]) + [-MAX64 - 1, -1]
  {
    var p := Part(1, 31, MAX64);
    var one := if 1 in out then out else out + [1];
    assert Add64(1, MAX64) == -MAX64 - 1 && Add64(-MAX64 - 1, MAX64) == -1 && Add64(-1, MAX64) == MAX64 - 1;
    var low := one + [-MAX64 - 1];
    var all := low + [-1];
    assert Stepped(all, MAX64 - 1, p) == all;
    assert Stepped(low, -1, p) == all;
    assert Stepped(one, -MAX64 - 1, p) == all;
    assert Stepped(out, 1, p) == all;
    assert all == one + [-MAX64 - 1, -1];
  }

  // ---- fields ----

  lemma OnePart(text: string, min: int, max: int, p: Part)
    requires SmallField(min, max) && ',' !in text && ReadPart(text, min, max) == Some(p)
    ensures InLoop(p.start, p) && ReadParts(Split(text, ','), min, max) == Some([p])
    ensures FieldValues(text, min, max) == Some(Stepped([], p.start, p))
  {
    hide ReadPart, Stepped;
    SplitPlain(text, ',');
    PartInLoop(text, min, max);
    assert [text][1..] == [] && [p] + [] == [p];
    assert ReadParts([text][1..], min, max) == Some([]);
    assert [p][1..] == [];
    assert Collected(Stepped([], p.start, p), [p][1..]) == Stepped([], p.start, p);
  }

  lemma TwoParts(a: string, b: string, min: int, max: int, p: Part, q: Part)
    requires SmallField(min, max) && ',' !in a && ',' !in b
    requires ReadPart(a, min, max) == Some(p) && ReadPart(b, min, max) == Some(q)
    ensures InLoop(p.start, p) && InLoop(q.start, q)
    ensures ReadParts(Split(a + "," + b, ','), min, max) == Some([p, q])
    ensures FieldValues(a + "," + b, min, max) == Some(Stepped(Stepped([], p.start, p), q.start, q))
  {
    hide ReadPart, Stepped, InLoop, Split;
    SplitAtFirst(a, b, ',');
    SplitPlain(b, ',');
    assert a + "," + b == a + [','] + b;
    var texts := [a] + [b];
    OnePart(b, min, max, q);
    assert texts[0] == a && texts[1..] == [b];
    PartInLoop(a, min, max);
    assert [p] + [q] == [p, q];
    assert ReadParts(texts, min, max) == Some([p, q]);
    CollectTwo(p, q);
  }

  lemma CollectTwo(p: Part, q: Part)
    requires InLoop(p.start, p) && InLoop(q.start, q)
    ensures Collected([], [p, q]) == Stepped(Stepped([], p.start, p), q.start, q)
  {
    hide Stepped, InLoop;
    assert [p, q][1..] == [q] && [q][1..] == [];
    var first := Stepped([], p.start, p);
    assert Collected(Stepped(first, q.start, q), [q][1..]) == Stepped(first, q.start, q);
    assert Collected(first, [p, q][1..]) == Stepped(first, q.start, q);
  }

  const EVERY_HUGE: string := "*/9223372036854775807"

  lemma HugeStepsAlone()
    ensures InLoop(1, Part(1, 31, MAX64)) && Stepped([], 1, Part(1, 31, MAX64)) == [1, -MAX64 - 1, -1]
  {
    hide Stepped;
    HugeSteps([]);
    assert [] + [1] == [1] && [1] + [-MAX64 - 1, -1] == [1, -MAX64 - 1, -1];
  }

  lemma HugeField(text: string)
    requires text == "*/" + HUGE
    ensures FieldValues(text, 1, 31) == Some([1, -MAX64 - 1, -1])
  {
    hide ReadPart, FieldValues, Stepped, InLoop;
    StarPart(1, 31);
    HugeHasNoComma();
    OnePart(text, 1, 31, Part(1, 31, MAX64));
    HugeStepsAlone();
  }

  lemma HugeHasNoComma()
    ensures ',' !in "*/" + HUGE
  {
    HugeValue();
  }

  /** The overflow in a field as a user writes it: the day of month gets the first and two negative values. */
  lemma HugeStepLeavesRange()
    ensures FieldValues(EVERY_HUGE, 1, 31) == Some([1, -MAX64 - 1, -1])
  {
    hide FieldValues;
    assert EVERY_HUGE == "*/" + HUGE;
    HugeField(EVERY_HUGE);
  }

  // ---- an expression that matches on days nobody wrote ----

  const STRAY: seq<string> := ["0", "0", "1-29,*/9223372036854775807", "*", "*"]

  lemma StrayDays()
    ensures ReadParts(Split(STRAY[2], ','), 1, 31) == Some([Part(1, 29, 1), Part(1, 31, MAX64)])
    ensures FieldValues(STRAY[2], 1, 31) == Some(Interval(1, 29) + [-MAX64 - 1, -1])
  {
    hide ReadPart, ReadParts, Split, Stepped, Collected, InLoop;
    var a, b := "1-29", "*/" + HUGE;
    assert STRAY[2] == a + "," + b;
    RangePart();
    StarPart(1, 31);
    TwoParts(a, b, 1, 31, Part(1, 29, 1), Part(1, 31, MAX64));
    WholeRange(Part(1, 29, 1));
    assert Interval(1, 29)[0] == 1;
    HugeSteps(Interval(1, 29));
  }

  lemma OtherFields()
    ensures FieldValues("0", 0, 59) == Some([0]) && FieldValues("0", 0, 23) == Some([0])
    ensures FieldValues("*", 1, 12) == Some(Interval(1, 12)) && FieldValues("*", 0, 6) == Some(Interval(0, 6))
  {
    ZeroPart(59);
    ZeroPart(23);
    OnePart("0", 0, 59, Part(0, 0, 1));
    OnePart("0", 0, 23, Part(0, 0, 1));
    WholeRange(Part(0, 0, 1));
    assert Interval(0, 0) == [0];
    PlainStar(1, 12);
    PlainStar(0, 6);
    OnePart("*", 1, 12, Part(1, 12, 1));
    OnePart("*", 0, 6, Part(0, 6, 1));
    WholeRange(Part(1, 12, 1));
    WholeRange(Part(0, 6, 1));
  }

  lemma NotWritten(day: int)
    requires day == 30 || day == 31
    ensures !Writes(STRAY[2], 1, 31, day)
  {
    StrayDays();
    var parts := [Part(1, 29, 1), Part(1, 31, MAX64)];
    forall i | 0 <= i < 2 ensures !Denotes(parts[i], day) {
      if i == 1 { MultipleStep(day - 1, MAX64); }
    }
  }

  function StraySchedule(): Schedule {
    Schedule([0], [0], Interval(1, 29) + [-MAX64 - 1, -1], Interval(1, 12), Interval(0, 6))
  }

  lemma StrayParses()
    ensures Parsed(STRAY, StraySchedule())
  {
    hide FieldValues, ReadPart;
    StrayDays();
    OtherFields();
  }

  lemma StrayMatches(day: int, month: int, weekday: int)
    requires (day == 30 || day == 31) && 1 <= month <= 12 && 0 <= weekday <= 6
    ensures Matches(StraySchedule(), Moment(0, 0, day, month, weekday)) && day !in StraySchedule().days
  {
    assert Interval(1, 12)[month - 1] == month;
  }

  /**
   Days 1 to 29 and a step of the largest integer: the list has 31 values, so it counts as
   complete, and the schedule matches at midnight on every 30th and 31st, which nobody wrote.
   */
  lemma UnwrittenDaysMatch(day: int, month: int, weekday: int)
    requires (day == 30 || day == 31) && 1 <= month <= 12 && 0 <= weekday <= 6
    ensures Parsed(STRAY, StraySchedule()) && !Writes(STRAY[2], 1, 31, day)
    ensures Matches(StraySchedule(), Moment(0, 0, day, month, weekday)) && !Agrees(StraySchedule(), MeaningOf(STRAY))
  {
    hide Parsed, Agrees, Writes, MeaningOf, Lists, NoStrays, Matches;
    StrayParses();
    NotWritten(day);
    StrayMatches(day, month, weekday);
    ExpressionMeaning(STRAY, StraySchedule());
    assert InSide(Days(StraySchedule(), MeaningOf(STRAY)), day);
    assert |StraySchedule().days| == 31;
  }
}
