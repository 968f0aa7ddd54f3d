/** Timestamps stored as text: bytewise order of the stored strings is the order of the instants. */
module IsoTime {
  import opened Wrappers
  import opened Calendar
  import opened Numerals

  /** A local time at the fixed offset +08:00. */
  datatype DateTime = DateTime(date: Date, hour: int, minute: int, second: int, micro: int)

  predicate Valid(t: DateTime) {
    && ValidDate(t.date) && t.date.year <= 9999
    && 0 <= t.hour < 24 && 0 <= t.minute < 60 && 0 <= t.second < 60 && 0 <= t.micro < 1_000_000
  }

  /** The instant, in microseconds on one time line. */
  function Micros(t: DateTime): int
    requires Valid(t)
  {
    (((Ordinal(t.date) * 24 + t.hour) * 60 + t.minute) * 60 + t.second) * 1_000_000 + t.micro
  }

  // ---------- text ----------

  function Pad(n: int, w: nat): (s: string)
    requires 0 <= n
    ensures |s| == w
    decreases w
  {
    if w == 0 then "" else Pad(n / 10, w - 1) + [DigitOf(n % 10)]
  }

  const OFFSET: string := "+08:00"

  function Fraction(micro: int): string
    requires 0 <= micro
  {
    if micro == 0 then "" else "." + Pad(micro, 6)
  }

  /** `isoformat`: the fraction is left out when it is zero. */
  function Iso(t: DateTime): string
    requires Valid(t)
  {
    Pad(t.date.year, 4) + ("-" + (Pad(t.date.month, 2) + ("-" + (Pad(t.date.day, 2) + ("T" +
      (Pad(t.hour, 2) + (":" + (Pad(t.minute, 2) + (":" + (Pad(t.second, 2) + (Fraction(t.micro) + OFFSET)))))))))))
  }

  /** Bytewise order of strings. */
  predicate Below(a: string, b: string) {
    b != [] && (a == [] || a[0] < b[0] || (a[0] == b[0] && Below(a[1..], b[1..])))
  }

  predicate AtMost(a: string, b: string) {
    a == b || Below(a, b)
  }

  // ---------- order ----------

  lemma BelowCons(c: char, d: char, x: string, y: string)
    ensures Below([c] + x, [d] + y) <==> c < d || (c == d && Below(x, y))
  {
    assert ([c] + x)[1..] == x && ([d] + y)[1..] == y;
  }

  lemma {:induction false} PadOrder(n: int, m: int, w: nat, x: string, y: string)
    requires 0 <= n < Pow10(w) && 0 <= m < Pow10(w)
    ensures Below(Pad(n, w) + x, Pad(m, w) + y) <==> n < m || (n == m && Below(x, y))
    decreases w
  {
    if w == 0 {
      assert Pad(n, w) + x == x && Pad(m, w) + y == y;
    } else {
      var c, d := DigitOf(n % 10), DigitOf(m % 10);
      PadOrder(n / 10, m / 10, w - 1, [c] + x, [d] + y);
      assert Pad(n, w) + x == Pad(n / 10, w - 1) + ([c] + x);
      assert Pad(m, w) + y == Pad(m / 10, w - 1) + ([d] + y);
      BelowCons(c, d, x, y);
    }
  }

  /** Times compare field by field, most significant first. */
  predicate FieldsBelow(a: DateTime, b: DateTime) {
    || Earlier(a.date, b.date)
    || (a.date == b.date &&
        (|| a.hour < b.hour
         || (a.hour == b.hour && a.minute < b.minute)
         || (a.hour == b.hour && a.minute == b.minute && a.second < b.second)
         || (a.hour == b.hour && a.minute == b.minute && a.second == b.second && a.micro < b.micro)))
  }

  /** A missing fraction sorts below every fraction, because '+' sorts below '.'. */
  lemma FractionOrder(a: int, b: int)
    requires 0 <= a < 1_000_000 && 0 <= b < 1_000_000
    ensures Below(Fraction(a) + OFFSET, Fraction(b) + OFFSET) <==> a < b
  {
    assert Pow10(6) == 1_000_000 by { assert Pow10(3) == 1000; }
    assert OFFSET[0] == '+' && '+' < '.';
    if a == 0 && b == 0 {
      assert Fraction(a) + OFFSET == OFFSET;
      SelfNotBelow(OFFSET);
    } else if a > 0 && b > 0 {
      PadOrder(a, b, 6, OFFSET, OFFSET);
      SelfNotBelow(OFFSET);
      assert Fraction(a) + OFFSET == ['.'] + (Pad(a, 6) + OFFSET);
      assert Fraction(b) + OFFSET == ['.'] + (Pad(b, 6) + OFFSET);
      BelowCons('.', '.', Pad(a, 6) + OFFSET, Pad(b, 6) + OFFSET);
    }
  }

  lemma {:induction false} SelfNotBelow(s: string)
    ensures !Below(s, s)
  {
    if s != [] { SelfNotBelow(s[1..]); }
  }

  /** One separator and one padded field in front of the rest. */
  lemma FieldOrder(sep: char, n: int, m: int, w: nat, x: string, y: string)
    requires 0 <= n < Pow10(w) && 0 <= m < Pow10(w)
    ensures Below([sep] + (Pad(n, w) + x), [sep] + (Pad(m, w) + y)) <==> n < m || (n == m && Below(x, y))
  {
    BelowCons(sep, sep, Pad(n, w) + x, Pad(m, w) + y);
    PadOrder(n, m, w, x, y);
  }

  function Seconds(t: DateTime): string
    requires Valid(t)
  {
    ":" + (Pad(t.second, 2) + (Fraction(t.micro) + OFFSET))
  }

  function Clock(t: DateTime): string
    requires Valid(t)
  {
    "T" + (Pad(t.hour, 2) + (":" + (Pad(t.minute, 2) + Seconds(t))))
  }

  lemma ClockOrder(a: DateTime, b: DateTime)
    requires Valid(a) && Valid(b)
    ensures Below(Clock(a), Clock(b)) <==>
            (|| a.hour < b.hour
             || (a.hour == b.hour && a.minute < b.minute)
             || (a.hour == b.hour && a.minute == b.minute && a.second < b.second)
             || (a.hour == b.hour && a.minute == b.minute && a.second == b.second && a.micro < b.micro))
  {
    assert Pow10(2) == 100;
    FractionOrder(a.micro, b.micro);
    FieldOrder(':', a.second, b.second, 2, Fraction(a.micro) + OFFSET, Fraction(b.micro) + OFFSET);
    FieldOrder(':', a.minute, b.minute, 2, Seconds(a), Seconds(b));
    FieldOrder('T', a.hour, b.hour, 2, ":" + (Pad(a.minute, 2) + Seconds(a)), ":" + (Pad(b.minute, 2) + Seconds(b)));
  }

  lemma TextOrder(a: DateTime, b: DateTime)
    requires Valid(a) && Valid(b)
    ensures Below(Iso(a), Iso(b)) <==> FieldsBelow(a, b)
  {
    assert Pow10(2) == 100 && Pow10(4) == 10_000;
    ClockOrder(a, b);
    FieldOrder('-', a.date.day, b.date.day, 2, Clock(a), Clock(b));
    FieldOrder('-', a.date.month, b.date.month, 2, "-" + (Pad(a.date.day, 2) + Clock(a)),
               "-" + (Pad(b.date.day, 2) + Clock(b)));
    PadOrder(a.date.year, b.date.year, 4,
             "-" + (Pad(a.date.month, 2) + ("-" + (Pad(a.date.day, 2) + Clock(a)))),
             "-" + (Pad(b.date.month, 2) + ("-" + (Pad(b.date.day, 2) + Clock(b)))));
  }

  lemma FieldsOrder(a: DateTime, b: DateTime)
    requires Valid(a) && Valid(b)
    ensures FieldsBelow(a, b) <==> Micros(a) < Micros(b)
    ensures a == b <==> Micros(a) == Micros(b)
  {
    OrdinalOrder(a.date, b.date);
  }

  /** Bytewise order of the stored strings, with or without a fraction on either side, is time order. */
  lemma IsoOrderIsTimeOrder(a: DateTime, b: DateTime)
    requires Valid(a) && Valid(b)
    ensures Below(Iso(a), Iso(b)) <==> Micros(a) < Micros(b)
    ensures AtMost(Iso(a), Iso(b)) <==> Micros(a) <= Micros(b)
    ensures Iso(a) == Iso(b) <==> a == b
  {
    TextOrder(a, b);
    TextOrder(b, a);
    FieldsOrder(a, b);
    FieldsOrder(b, a);
    SelfNotBelow(Iso(a));
  }

  // ---------- reading the text back ----------

  function Unpad(s: string): Option<int> {
    if Digits(s) then Some(Value(s)) else None
  }

  lemma {:induction false} UnpadPad(n: int, w: nat)
    requires 0 <= n < Pow10(w)
    ensures Unpad(Pad(n, w)) == Some(n)
    decreases w
  {
    if w > 0 {
      UnpadPad(n / 10, w - 1);
      ValueSnoc(Pad(n / 10, w - 1), DigitOf(n % 10));
    }
  }

  /** `fromisoformat` on the two shapes `isoformat` writes at this offset. */
  function Parse(s: string): Option<DateTime> {
    if |s| != 25 && |s| != 32 then None
    else
      var cut := |s| - 6;
      if s[cut..] != OFFSET || s[4] != '-' || s[7] != '-' || s[10] != 'T' || s[13] != ':' || s[16] != ':' then None
      else if cut == 26 && s[19] != '.' then None
      else
        var year, month, day := Unpad(s[0..4]), Unpad(s[5..7]), Unpad(s[8..10]);
        var hour, minute, second := Unpad(s[11..13]), Unpad(s[14..16]), Unpad(s[17..19]);
        var micro := if cut == 26 then Unpad(s[20..26]) else Some(0);
        if year.None? || month.None? || day.None? || hour.None? || minute.None? || second.None? || micro.None? then None
        else
          var date := Date(year.value, month.value, day.value);
          var t := DateTime(date, hour.value, minute.value, second.value, micro.value);
          if Valid(t) then Some(t) else None
  }

  lemma Peel(s: string, k: nat, p: string, r: string)
    requires k <= |s| && s[k..] == p + r
    ensures k + |p| <= |s| && s[k..k + |p|] == p && s[k + |p|..] == r
  {
    assert s[k..][..|p|] == p && s[k..][|p|..] == r;
  }

  lemma ClockPieces(s: string, t: DateTime)
    requires Valid(t) && |s| >= 10 && s[10..] == Clock(t)
    ensures && |s| == 19 + |Fraction(t.micro)| + |OFFSET|
            && s[10] == 'T' && s[11..13] == Pad(t.hour, 2) && s[13] == ':' && s[14..16] == Pad(t.minute, 2)
            && s[16] == ':'
            && s[17..19] == Pad(t.second, 2) && s[19..] == Fraction(t.micro) + OFFSET
  {
    var minute := Pad(t.minute, 2) + Seconds(t);
    Peel(s, 10, "T", Pad(t.hour, 2) + (":" + minute));
    Peel(s, 11, Pad(t.hour, 2), ":" + minute);
    Peel(s, 13, ":", minute);
    Peel(s, 14, Pad(t.minute, 2), Seconds(t));
    Peel(s, 16, ":", Pad(t.second, 2) + (Fraction(t.micro) + OFFSET));
    Peel(s, 17, Pad(t.second, 2), Fraction(t.micro) + OFFSET);
  }

  lemma DatePieces(t: DateTime)
    requires Valid(t)
    ensures var s := Iso(t);
            && |s| >= 10 && s[10..] == Clock(t)
            && s[0..4] == Pad(t.date.year, 4) && s[4] == '-' && s[5..7] == Pad(t.date.month, 2) && s[7] == '-'
            && s[8..10] == Pad(t.date.day, 2)
  {
    var s := Iso(t);
    var day := Pad(t.date.day, 2) + Clock(t);
    var month := Pad(t.date.month, 2) + ("-" + day);
    assert s[0..] == Pad(t.date.year, 4) + ("-" + month);
    Peel(s, 0, Pad(t.date.year, 4), "-" + month);
    Peel(s, 4, "-", month);
    Peel(s, 5, Pad(t.date.month, 2), "-" + day);
    Peel(s, 7, "-", day);
    Peel(s, 8, Pad(t.date.day, 2), Clock(t));
  }

  /** The pieces of the text sit at fixed positions. */
  lemma IsoLayout(t: DateTime)
    requires Valid(t)
    ensures var s := Iso(t);
            && |s| == (if t.micro == 0 then 25 else 32)
            && s[0..4] == Pad(t.date.year, 4) && s[4] == '-' && s[5..7] == Pad(t.date.month, 2) && s[7] == '-'
            && s[8..10] == Pad(t.date.day, 2) && s[10] == 'T' && s[11..13] == Pad(t.hour, 2) && s[13] == ':'
            && s[14..16] == Pad(t.minute, 2) && s[16] == ':' && s[17..19] == Pad(t.second, 2)
            && s[19..] == Fraction(t.micro) + OFFSET
  {
    DatePieces(t);
    ClockPieces(Iso(t), t);
  }

  lemma FractionPieces(s: string, micro: int)
    requires 0 <= micro < 1_000_000 && |s| == (if micro == 0 then 25 else 32) && s[19..] == Fraction(micro) + OFFSET
    ensures s[|s| - 6..] == OFFSET && (micro != 0 ==> s[19] == '.' && s[20..26] == Pad(micro, 6))
  {
    Peel(s, 19, Fraction(micro), OFFSET);
    if micro != 0 {
      Peel(s, 19, ".", Pad(micro, 6) + OFFSET);
      Peel(s, 20, Pad(micro, 6), OFFSET);
    }
  }

  lemma FractionLayout(t: DateTime)
    requires Valid(t)
    ensures var s := Iso(t);
            && |s| == (if t.micro == 0 then 25 else 32) && s[|s| - 6..] == OFFSET
            && (t.micro != 0 ==> s[19] == '.' && s[20..26] == Pad(t.micro, 6))
  {
    IsoLayout(t);
    FractionPieces(Iso(t), t.micro);
  }

  lemma FieldsReadBack(t: DateTime)
    requires Valid(t)
    ensures Unpad(Pad(t.date.year, 4)) == Some(t.date.year) && Unpad(Pad(t.date.month, 2)) == Some(t.date.month)
    ensures Unpad(Pad(t.date.day, 2)) == Some(t.date.day) && Unpad(Pad(t.hour, 2)) == Some(t.hour)
    ensures Unpad(Pad(t.minute, 2)) == Some(t.minute) && Unpad(Pad(t.second, 2)) == Some(t.second)
    ensures Unpad(Pad(t.micro, 6)) == Some(t.micro)
  {
    assert Pow10(2) == 100 && Pow10(4) == 10_000;
    assert Pow10(6) == 1_000_000 by { assert Pow10(3) == 1000; }
    UnpadPad(t.date.year, 4);
    UnpadPad(t.date.month, 2);
    UnpadPad(t.date.day, 2);
    UnpadPad(t.hour, 2);
    UnpadPad(t.minute, 2);
    UnpadPad(t.second, 2);
    UnpadPad(t.micro, 6);
  }

  lemma ParseIso(t: DateTime)
    requires Valid(t)
    ensures Parse(Iso(t)) == Some(t)
  {
    IsoLayout(t);
    FractionLayout(t);
    FieldsReadBack(t);
  }

  // ---------- the two due checks ----------

  datatype Answer = Yes | No | Malformed

  /** The claim step's check: an absent or empty value is due, otherwise the parsed instant decides. */
  function IsDue(value: Option<string>, now: DateTime): Answer
    requires Valid(now)
  {
    if value.None? || value.value == "" then Yes
    else
      match Parse(value.value)
      case None => Malformed
      case Some(t) => if Micros(t) <= Micros(now) then Yes else No
  }

  /** The recovery scan's check on the stored text. */
  predicate ScanSelects(value: Option<string>, now: string) {
    value.None? || AtMost(value.value, now)
  }

  /** On every value the service stores, the scan and the claim agree. */
  lemma ScanAgreesWithClaim(value: Option<string>, now: DateTime)
    requires Valid(now)
    requires value.Some? && value.value != "" ==> exists t :: Valid(t) && value.value == Iso(t)
    ensures IsDue(value, now) == if ScanSelects(value, Iso(now)) then Yes else No
  {
    if value.Some? && value.value != "" {
      var t :| Valid(t) && value.value == Iso(t);
      ParseIso(t);
      IsoOrderIsTimeOrder(t, now);
    }
  }
}
