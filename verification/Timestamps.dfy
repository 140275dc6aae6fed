/**
 The text form of instants in the database (internal/store/time.go) and the migration that
 widened the old form (migration 3 of internal/store/migrations.go). The database compares
 the column as TEXT, so everything that asks "which is later" rests on the order proved here.
 */
module Timestamps {
  import opened Optional
  import opened Text
  import opened Decimal
  import opened Calendar

  /** The part of the layout down to whole seconds: `2006-01-02T15:04:05`. */
  function ToSeconds(c: Civil): (s: string)
    ensures |s| == 19
  {
    Digits(c.year, 4) + ("-" + (Digits(c.month, 2) + ("-" + (Digits(c.day, 2) + ("T" + (Digits(c.hour, 2) + (":" +
    (Digits(c.minute, 2) + (":" + Digits(c.second, 2))))))))))
  }

  /** `timeLayout` in UTC: nine fractional digits, always. */
  function Fixed(c: Civil): (s: string)
    ensures |s| == 30
  {
    ToSeconds(c) + ("." + (Digits(c.nano, 9) + "Z"))
  }

  function FormatFixed(t: Instant): string
    requires InRange(t)
  {
    Fixed(ToCivil(t))
  }

  /** `formatTime`: the zero time is the empty text. */
  function FormatTime(t: Instant): string
    requires InRange(t)
  {
    if t == ZERO then "" else FormatFixed(t)
  }

  /** `nullTime`: the zero time is NULL. */
  function NullTime(t: Instant): Option<string>
    requires InRange(t)
  {
    if t == ZERO then None else Some(FormatTime(t))
  }

  // ---- reading ----

  /** The nanoseconds that fraction digits denote. */
  function Nanos(ds: string): nat
    requires AllDigits(ds)
  {
    if |ds| >= 9 then Value(ds[..9]) else Value(ds) * Pow10(9 - |ds|)
  }

  /** The fraction and zone that may follow the seconds, in nanoseconds: further digits are dropped. */
  function Fraction(tail: string): Option<nat> {
    if tail == "Z" then Some(0)
    else if |tail| >= 3 && tail[0] == '.' && AllDigits(tail[1..|tail| - 1]) && tail[|tail| - 1] == 'Z' then
      var ds := tail[1..|tail| - 1];
      Some(Nanos(ds))
    else None
  }

  predicate Shaped(s: string) {
    && |s| >= 20 && s[4] == '-' && s[7] == '-' && s[10] == 'T' && s[13] == ':' && s[16] == ':'
    && AllDigits(s[0..4]) && AllDigits(s[5..7]) && AllDigits(s[8..10])
    && AllDigits(s[11..13]) && AllDigits(s[14..16]) && AllDigits(s[17..19])
  }

  function ReadCivil(s: string, nano: nat): Civil
    requires Shaped(s)
  {
    Civil(Value(s[0..4]), Value(s[5..7]), Value(s[8..10]), Value(s[11..13]), Value(s[14..16]), Value(s[17..19]), nano)
  }

  /** `time.Parse(time.RFC3339Nano, s)` on text in UTC (section 5.6 of RFC 3339, zone `Z`). */
  function ParseUtc(s: string): Option<Instant> {
    if !Shaped(s) || Fraction(s[19..]).None? then None
    else
      var c := ReadCivil(s, Fraction(s[19..]).value);
      if Valid(c) then Some(FromCivil(c)) else None
  }

  /** `parseTime`: anything unreadable is the zero time. */
  function ParseTime(s: string): Instant {
    if s == "" then ZERO
    else match ParseUtc(s)
      case Some(t) => t
      case None => ZERO
  }

  function TimeFromNull(column: Option<string>): Instant {
    match column
    case None => ZERO
    case Some(s) => ParseTime(s)
  }

  // ---- the old form and its migration ----

  function StripZeros(s: string): string {
    if s != "" && s[|s| - 1] == '0' then StripZeros(s[..|s| - 1]) else s
  }

  /** What earlier versions wrote: `time.RFC3339Nano` removes trailing zeros, and the point with them. */
  function FormatTrimmed(t: Instant): string
    requires InRange(t)
  {
    var c := ToCivil(t);
    var fraction := StripZeros(Digits(c.nano, 9));
    ToSeconds(c) + (if fraction == "" then "Z" else "." + fraction + "Z")
  }

  /** SQL `LIKE '____-__-__T__:__:__%Z'`; LIKE ignores the case of ASCII letters. */
  predicate LikeStamp(s: string) {
    && |s| >= 20 && s[4] == '-' && s[7] == '-' && s[13] == ':' && s[16] == ':'
    && (s[10] == 'T' || s[10] == 't') && (s[|s| - 1] == 'Z' || s[|s| - 1] == 'z')
  }

  /** SQL `replace(s, 'Z', '')`. */
  function RemoveZ(s: string): string {
    if s == "" then "" else (if s[0] == 'Z' then "" else [s[0]]) + RemoveZ(s[1..])
  }

  /** SQL `substr(s, 2)`. */
  function DropFirst(s: string): string {
    if s == "" then "" else s[1..]
  }

  /** SQL `substr(s || '000000000', 1, 9)`. */
  function PadNine(s: string): (p: string)
    ensures |p| == 9
  {
    (s + Zeros(9))[..9]
  }

  /** One column value under migration 3. */
  function Migrate(s: string): string {
    if LikeStamp(s) && |s| != 30 then
      s[..19] + ("." + (PadNine(DropFirst(RemoveZ(s[19..]))) + "Z"))
    else s
  }

  // ---- order ----

  lemma FieldOrder(a: nat, b: nat, w: nat, sep: string, s: string, t: string)
    requires a < Pow10(w) && b < Pow10(w) && |sep| == 1
    ensures Less(Digits(a, w) + (sep + s), Digits(b, w) + (sep + t)) <==> a < b || (a == b && Less(s, t))
  {
    DigitsOrder(a, b, w);
    LessByField(Digits(a, w), Digits(b, w), sep + s, sep + t);
    LessByField(sep, sep, s, t);
    LessIrreflexive(sep);
  }

  /** Text order of two fixed-width stamps is calendar order. */
  lemma FixedOrder(a: Civil, b: Civil)
    requires Valid(a) && Valid(b)
    ensures Less(Fixed(a), Fixed(b)) <==> CivilLess(a, b)
  {
    Powers();
    SecondsOrder(a, b);
    var x, y := "." + (Digits(a.nano, 9) + "Z"), "." + (Digits(b.nano, 9) + "Z");
    LessByField(ToSeconds(a), ToSeconds(b), x, y);
    FieldOrder(a.nano, b.nano, 9, "Z", "", "");
    assert Digits(a.nano, 9) + ("Z" + "") == Digits(a.nano, 9) + "Z";
    assert Digits(b.nano, 9) + ("Z" + "") == Digits(b.nano, 9) + "Z";
    LessByField(".", ".", Digits(a.nano, 9) + "Z", Digits(b.nano, 9) + "Z");
    LessIrreflexive(".");
  }

  /** The same for the part down to seconds, which also determines its fields. */
  lemma SecondsOrder(a: Civil, b: Civil)
    requires Valid(a) && Valid(b)
    ensures Less(ToSeconds(a), ToSeconds(b)) <==> CivilLess(a.(nano := 0), b.(nano := 0))
    ensures ToSeconds(a) == ToSeconds(b) ==> a.(nano := 0) == b.(nano := 0)
  {
    Powers();
    var a5, b5 := Digits(a.second, 2), Digits(b.second, 2);
    DigitsOrder(a.second, b.second, 2);
    var a4, b4 := Digits(a.minute, 2) + (":" + a5), Digits(b.minute, 2) + (":" + b5);
    FieldOrder(a.minute, b.minute, 2, ":", a5, b5);
    var a3, b3 := Digits(a.hour, 2) + (":" + a4), Digits(b.hour, 2) + (":" + b4);
    FieldOrder(a.hour, b.hour, 2, ":", a4, b4);
    var a2, b2 := Digits(a.day, 2) + ("T" + a3), Digits(b.day, 2) + ("T" + b3);
    FieldOrder(a.day, b.day, 2, "T", a3, b3);
    var a1, b1 := Digits(a.month, 2) + ("-" + a2), Digits(b.month, 2) + ("-" + b2);
    FieldOrder(a.month, b.month, 2, "-", a2, b2);
    FieldOrder(a.year, b.year, 4, "-", a1, b1);
    if ToSeconds(a) == ToSeconds(b) {
      LessIrreflexive(ToSeconds(a));
      assert !CivilLess(a.(nano := 0), b.(nano := 0)) && !CivilLess(b.(nano := 0), a.(nano := 0)) by {
        FieldOrder(b.minute, a.minute, 2, ":", b5, a5);
        FieldOrder(b.hour, a.hour, 2, ":", b4, a4);
        FieldOrder(b.day, a.day, 2, "T", b3, a3);
        FieldOrder(b.month, a.month, 2, "-", b2, a2);
        FieldOrder(b.year, a.year, 4, "-", b1, a1);
        DigitsOrder(b.second, a.second, 2);
      }
    }
  }

  lemma FormatFixedOrder(a: Instant, b: Instant)
    requires InRange(a) && InRange(b)
    ensures Less(FormatFixed(a), FormatFixed(b)) <==> a < b
  {
    FixedOrder(ToCivil(a), ToCivil(b));
    CalendarOrder(ToCivil(a), ToCivil(b));
    InstantRoundTrip(a);
    InstantRoundTrip(b);
  }

  /**
   Byte order of stored times is chronological order exactly when the pair does not set the
   zero time against an instant before it: the empty text sorts first, yet year 0000 is earlier.
   */
  lemma StoredOrder(a: Instant, b: Instant)
    requires InRange(a) && InRange(b)
    ensures (Less(FormatTime(a), FormatTime(b)) <==> a < b)
       <==> !(a == ZERO && b < ZERO) && !(b == ZERO && a < ZERO)
  {
    FormatFixedOrder(a, b);
  }

  /** `column IS NOT NULL AND column < ?`, the guard of every retention query, reads the clock correctly. */
  lemma ColumnBefore(t: Instant, now: Instant)
    requires InRange(t) && InRange(now) && now != ZERO
    ensures (NullTime(t).Some? && Less(NullTime(t).value, FormatTime(now))) <==> t != ZERO && t < now
  {
    if t != ZERO { FormatFixedOrder(t, now); }
  }

  /** `column IS NULL OR column <= ?`, the guard of the retry query. */
  lemma ColumnNotAfter(t: Instant, now: Instant)
    requires InRange(t) && InRange(now) && now != ZERO
    ensures (NullTime(t).Some? ==> !Less(FormatTime(now), NullTime(t).value)) <==> t == ZERO || t <= now
  {
    if t != ZERO { FormatFixedOrder(now, t); }
  }

  // ---- reading undoes writing ----

  lemma FixedSlices(c: Civil)
    ensures var s := Fixed(c);
      && Shaped(s) && s[0..4] == Digits(c.year, 4) && s[5..7] == Digits(c.month, 2) && s[8..10] == Digits(c.day, 2)
      && s[11..13] == Digits(c.hour, 2) && s[14..16] == Digits(c.minute, 2) && s[17..19] == Digits(c.second, 2)
      && s[19..] == "." + Digits(c.nano, 9) + "Z"
  {
    var s := Fixed(c);
    assert s[0..4] == Digits(c.year, 4);
    assert s[5..7] == Digits(c.month, 2);
    assert s[8..10] == Digits(c.day, 2);
    assert s[11..13] == Digits(c.hour, 2);
    assert s[14..16] == Digits(c.minute, 2);
    assert s[17..19] == Digits(c.second, 2);
  }

  lemma FractionOf(ds: string)
    requires AllDigits(ds) && ds != ""
    ensures Fraction("." + ds + "Z") == Some(Nanos(ds))
  {
    var tail := "." + ds + "Z";
    assert tail[1..|tail| - 1] == ds;
  }

  lemma NineDigits(ds: string)
    requires AllDigits(ds) && |ds| == 9
    ensures Nanos(ds) == Value(ds)
  {
    assert ds[..9] == ds;
  }

  lemma FieldsOfFixed(c: Civil)
    requires Valid(c)
    ensures Shaped(Fixed(c)) && Fraction(Fixed(c)[19..]) == Some(c.nano) && ReadCivil(Fixed(c), c.nano) == c
  {
    Powers();
    FixedSlices(c);
    hide Digits, Value, Pow10, Fixed;
    ValueOfDigits(c.year, 4);
    ValueOfDigits(c.month, 2);
    ValueOfDigits(c.day, 2);
    ValueOfDigits(c.hour, 2);
    ValueOfDigits(c.minute, 2);
    ValueOfDigits(c.second, 2);
    ValueOfDigits(c.nano, 9);
    FractionOf(Digits(c.nano, 9));
    NineDigits(Digits(c.nano, 9));
  }

  lemma ParseOfFixed(c: Civil)
    requires Valid(c)
    ensures ParseUtc(Fixed(c)) == Some(FromCivil(c))
  {
    FieldsOfFixed(c);
  }

  /** `parseTime` undoes `formatTime`, the zero time included. */
  lemma StoredRoundTrip(t: Instant)
    requires InRange(t)
    ensures ParseTime(FormatTime(t)) == t
    ensures TimeFromNull(NullTime(t)) == t
  {
    InstantRoundTrip(t);
    ParseOfFixed(ToCivil(t));
  }

  // ---- the migration keeps every instant ----

  lemma ReadSeconds(s: string, nano: nat)
    requires Shaped(s)
    ensures ToSeconds(ReadCivil(s, nano)) == s[..19]
  {
    hide Digits, Value, Pow10;
    DigitsOfValue(s[0..4]);
    DigitsOfValue(s[5..7]);
    DigitsOfValue(s[8..10]);
    DigitsOfValue(s[11..13]);
    DigitsOfValue(s[14..16]);
    DigitsOfValue(s[17..19]);
    assert s[..19] == s[0..4] + ("-" + (s[5..7] + ("-" + (s[8..10] + ("T" + (s[11..13] + (":" +
      (s[14..16] + (":" + s[17..19])))))))));
  }

  lemma {:induction false} RemoveZFromDigits(ds: string)
    requires AllDigits(ds)
    ensures RemoveZ(ds + "Z") == ds
  {
    if ds == "" {
      assert RemoveZ("Z"[1..]) == "";
    } else {
      assert (ds + "Z")[1..] == ds[1..] + "Z";
      RemoveZFromDigits(ds[1..]);
    }
  }

  lemma PadReadsSame(ds: string)
    requires AllDigits(ds)
    ensures PadNine(ds) == Digits(Nanos(ds), 9)
  {
    if |ds| >= 9 {
      assert PadNine(ds) == ds[..9];
      DigitsOfValue(ds[..9]);
    } else {
      var k := 9 - |ds|;
      ValueOfPadded(ds, k);
      assert PadNine(ds) == ds + Zeros(k);
      DigitsOfValue(ds + Zeros(k));
    }
  }

  /** What the migration's text surgery leaves after the seconds is the fraction the reader sees. */
  lemma MigratedFraction(tail: string)
    requires Fraction(tail).Some?
    ensures PadNine(DropFirst(RemoveZ(tail))) == Digits(Fraction(tail).value, 9)
    ensures |tail| == 11 ==> tail == "." + (Digits(Fraction(tail).value, 9) + "Z")
  {
    if tail == "Z" {
      NoFraction("");
    } else {
      var ds := tail[1..|tail| - 1];
      Ends(tail);
      MigratedDigits(ds);
    }
  }

  lemma Ends(s: string)
    requires |s| >= 2
    ensures s == [s[0]] + (s[1..|s| - 1] + [s[|s| - 1]])
  {
  }

  lemma NoFraction(none: string)
    requires none == ""
    ensures PadNine(DropFirst(RemoveZ("Z"))) == Digits(0, 9)
  {
    RemoveZFromDigits(none);
    assert none + "Z" == "Z";
    PadReadsSame(none);
    assert Nanos(none) == 0;
  }

  lemma MigratedDigits(ds: string)
    requires AllDigits(ds)
    ensures PadNine(DropFirst(RemoveZ("." + (ds + "Z")))) == Digits(Nanos(ds), 9)
    ensures |ds| == 9 ==> ds == Digits(Nanos(ds), 9)
  {
    RemoveZFromDigits(ds);
    assert ("." + (ds + "Z"))[1..] == ds + "Z";
    assert RemoveZ("." + (ds + "Z")) == "." + ds;
    assert DropFirst("." + ds) == ds;
    PadReadsSame(ds);
    if |ds| == 9 {
      NineDigits(ds);
      DigitsOfValue(ds);
    }
  }

  /**
   Migration 3 rewrites every readable UTC stamp, of any fraction width, to the one
   fixed-width stamp of the instant it already denoted.
   */
  lemma MigrationIsCanonical(s: string)
    requires ParseUtc(s).Some?
    ensures var t := ParseUtc(s).value; InRange(t) && Migrate(s) == FormatFixed(t)
  {
    var tail := s[19..];
    var nano := Fraction(tail).value;
    var c := ReadCivil(s, nano);
    assert s[..19] + tail == s && LikeStamp(s) by { FractionEnds(tail); }
    assert Valid(c) && c.nano == nano;
    hide FromCivil, ToCivil, Valid, ReadCivil, ToSeconds, Fraction, PadNine, RemoveZ, DropFirst, Digits, LikeStamp;
    CivilRoundTrip(c);
    ReadSeconds(s, nano);
    MigratedFraction(tail);
    assert Fixed(c) == s[..19] + ("." + (Digits(nano, 9) + "Z"));
  }

  lemma FractionEnds(tail: string)
    requires Fraction(tail).Some?
    ensures tail != "" && tail[|tail| - 1] == 'Z'
  {
  }

  /** Applying the migration again changes nothing, whatever the text. */
  lemma MigrationIsIdempotent(s: string)
    ensures Migrate(Migrate(s)) == Migrate(s)
  {
    if LikeStamp(s) && |s| != 30 { assert |Migrate(s)| == 30; }
  }

  /** Migrated rows of both shapes sort by the clock. */
  lemma MigratedOrder(s: string, t: string)
    requires ParseUtc(s).Some? && ParseUtc(t).Some?
    ensures Less(Migrate(s), Migrate(t)) <==> ParseUtc(s).value < ParseUtc(t).value
    ensures ParseUtc(Migrate(s)) == ParseUtc(s)
  {
    MigrationIsCanonical(s);
    MigrationIsCanonical(t);
    var a, b := ParseUtc(s).value, ParseUtc(t).value;
    FormatFixedOrder(a, b);
    InstantRoundTrip(a);
    ParseOfFixed(ToCivil(a));
  }

  lemma MoveTen(a: nat, p: nat)
    ensures (10 * a) * p == a * (10 * p)
  {
  }

  lemma {:induction false} StripReadsSame(s: string, k: nat)
    requires AllDigits(s) && |s| + k == 9
    ensures var r := StripZeros(s); AllDigits(r) && |r| <= |s| && Value(r) * Pow10(9 - |r|) == Value(s) * Pow10(k)
  {
    if s != "" && s[|s| - 1] == '0' {
      var t := s[..|s| - 1];
      StripReadsSame(t, k + 1);
      assert Value(s) == 10 * Value(t);
      assert Pow10(k + 1) == 10 * Pow10(k);
      MoveTen(Value(t), Pow10(k));
    }
  }

  lemma TrimmedTail(c: Civil)
    requires Valid(c)
    ensures var fraction := StripZeros(Digits(c.nano, 9));
      Fraction(if fraction == "" then "Z" else "." + fraction + "Z") == Some(c.nano)
  {
    Powers();
    assert c.nano < Pow10(9) && Pow10(0) == 1;
    hide Digits, StripZeros, Valid, Pow10, Fraction, Value, Nanos;
    ValueOfDigits(c.nano, 9);
    StripReadsSame(Digits(c.nano, 9), 0);
    ReadsAs(StripZeros(Digits(c.nano, 9)));
  }

  lemma ReadsAs(fraction: string)
    requires AllDigits(fraction) && |fraction| <= 9
    ensures Fraction(if fraction == "" then "Z" else "." + fraction + "Z") == Some(Value(fraction) * Pow10(9 - |fraction|))
  {
    if fraction != "" {
      FractionOf(fraction);
      if |fraction| == 9 { NineDigits(fraction); }
    }
  }

  lemma Reslice(s: string, i: nat, j: nat)
    requires i <= j <= 19 <= |s|
    ensures s[i..j] == s[..19][i..j]
  {
  }

  lemma SamePrefixReadsSame(s: string, t: string, nano: nat)
    requires |s| >= 20 && |t| >= 20 && s[..19] == t[..19] && Shaped(t)
    ensures Shaped(s) && ReadCivil(s, nano) == ReadCivil(t, nano)
  {
    forall i, j | 0 <= i <= j <= 19 ensures s[i..j] == t[i..j] {
      Reslice(s, i, j);
      Reslice(t, i, j);
    }
    assert forall i | 0 <= i < 19 :: s[i] == s[..19][i] && t[i] == t[..19][i];
  }

  /** The form earlier versions wrote is read as the instant that was written, and migrates to its fixed form. */
  lemma TrimmedRoundTrip(t: Instant)
    requires InRange(t)
    ensures ParseUtc(FormatTrimmed(t)) == Some(t)
    ensures Migrate(FormatTrimmed(t)) == FormatFixed(t)
  {
    InstantRoundTrip(t);
    var c := ToCivil(t);
    var s, f := FormatTrimmed(t), Fixed(c);
    ParseOfFixed(c);
    TrimmedTail(c);
    var fraction := StripZeros(Digits(c.nano, 9));
    assert s[19..] == if fraction == "" then "Z" else "." + fraction + "Z";
    assert s[..19] == ToSeconds(c) == f[..19];
    SamePrefixReadsSame(s, f, c.nano);
    assert ReadCivil(f, c.nano) == c by { FieldsOfFixed(c); }
    MigrationIsCanonical(s);
  }

  /** Why the migration exists: in the old form a whole second sorts after every later instant of that second. */
  lemma TrimmedMisorders(whole: Instant, later: Instant)
    requires InRange(whole) && InRange(later)
    requires ToCivil(whole).nano == 0 < ToCivil(later).nano && ToCivil(later).(nano := 0) == ToCivil(whole)
    ensures whole < later && Less(FormatTrimmed(later), FormatTrimmed(whole))
  {
    var a, b := ToCivil(whole), ToCivil(later);
    InstantRoundTrip(whole);
    InstantRoundTrip(later);
    CalendarOrder(a, b);
    TrimmedTail(a);
    TrimmedTail(b);
    Powers();
    ValueOfDigits(0, 9);
    NoDigitsLeft(Digits(0, 9));
    var seconds := ToSeconds(a);
    assert seconds == ToSeconds(b);
    var tail := FormatTrimmed(later)[19..];
    assert Fraction(tail) == Some(b.nano);
    assert FormatTrimmed(later) == seconds + tail && tail[0] == '.';
    LessByField(seconds, seconds, tail, "Z");
  }

  lemma {:induction false} NoDigitsLeft(s: string)
    requires AllDigits(s) && Value(s) == 0
    ensures StripZeros(s) == ""
  {
    if s != "" { NoDigitsLeft(s[..|s| - 1]); }
  }
}
