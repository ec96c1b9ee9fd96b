// The fields an upstream merge may disagree on: how each is written as text, read back, and compared.

module ConflictValues {
  import opened Common
  import opened Text

  // ----- numbers and dates as text -----

  function DigitChar(d: nat): char
    requires d < 10
  {
    '0' + d as char
  }

  predicate IsDigit(c: char) { '0' <= c <= '9' }

  function DigitValue(c: char): nat
    requires IsDigit(c)
  {
    (c - '0') as nat
  }

  function Digits(n: nat): string {
    if n < 10 then [DigitChar(n)] else Digits(n / 10) + [DigitChar(n % 10)]
  }

  /** The number a run of digits spells. */
  function Number(s: string): Option<nat> {
    if s == "" || !IsDigit(s[|s| - 1]) then None
    else if |s| == 1 then Some(DigitValue(s[0]))
    else
      match Number(s[..|s| - 1])
      case None => None
      case Some(n) => Some(10 * n + DigitValue(s[|s| - 1]))
  }

  lemma {:induction false} NumberOfDigits(n: nat)
    ensures Number(Digits(n)) == Some(n)
    ensures Digits(n) != "" && IsDigit(Digits(n)[0]) && IsDigit(Digits(n)[|Digits(n)| - 1])
  {
    if n >= 10 {
      NumberOfDigits(n / 10);
      assert Digits(n)[..|Digits(n)| - 1] == Digits(n / 10);
    }
  }

  lemma DigitsAreTrimmed(n: nat)
    ensures Trim(Digits(n)) == Digits(n)
  {
    NumberOfDigits(n);
    TrimKeepsTrimmed(Digits(n));
  }

  datatype Date = Date(year: nat, month: nat, day: nat)

  function DaysIn(year: nat, month: nat): nat {
    if month == 2 then (if year % 4 == 0 && (year % 100 != 0 || year % 400 == 0) then 29 else 28)
    else if month in {4, 6, 9, 11} then 30
    else 31
  }

  predicate RealDate(d: Date) { 1 <= d.month <= 12 && 1 <= d.day <= DaysIn(d.year, d.month) }

  /** The zero time, which counts as no date. */
  const ZERO_DATE := Date(1, 1, 1)

  function TwoDigits(n: nat): (s: string)
    requires n < 100
    ensures |s| == 2
  {
    [DigitChar(n / 10), DigitChar(n % 10)]
  }

  /** The year is padded to four digits; a longer one is written out. */
  function YearText(n: nat): string {
    if n < 10000 then TwoDigits(n / 100) + TwoDigits(n % 100) else Digits(n)
  }

  function FormatDate(d: Option<Date>): string
    requires d.Some? ==> RealDate(d.value)
  {
    if d.None? || d.value == ZERO_DATE then ""
    else YearText(d.value.year) + "-" + TwoDigits(d.value.month) + "-" + TwoDigits(d.value.day)
  }

  /** A date is read from exactly four, two and two digits. */
  function ParseDate(text: string): (r: Option<Date>)
    ensures r.Some? ==> RealDate(r.value)
  {
    var s := Trim(text);
    if |s| != 10 || s[4] != '-' || s[7] != '-' then None
    else
      var year, month, day := Number(s[..4]), Number(s[5..7]), Number(s[8..]);
      if year.None? || month.None? || day.None? then None
      else
        var d := Date(year.value, month.value, day.value);
        if RealDate(d) then Some(d) else None
  }

  lemma NumberOfTwo(n: nat)
    requires n < 100
    ensures Number(TwoDigits(n)) == Some(n)
  {
    var s := TwoDigits(n);
    assert s[..1] == [DigitChar(n / 10)];
  }

  lemma NumberOfYear(n: nat)
    requires n < 10000
    ensures |YearText(n)| == 4 && Number(YearText(n)) == Some(n)
  {
    var s := YearText(n);
    assert s[..3][..2] == TwoDigits(n / 100) && s[..3][2] == DigitChar(n % 100 / 10) && s[3] == DigitChar(n % 10);
    NumberOfTwo(n / 100);
    assert Number(s[..3]) == Some(10 * (n / 100) + n % 100 / 10);
  }

  lemma {:induction false} DigitsAreLong(n: nat, k: nat)
    requires n >= Power10(k)
    ensures |Digits(n)| >= k + 1
  {
    if k > 0 { DigitsAreLong(n / 10, k - 1); }
  }

  function Power10(k: nat): nat { if k == 0 then 1 else 10 * Power10(k - 1) }

  lemma FormattedIsTrimmed(d: Date)
    requires RealDate(d) && d != ZERO_DATE
    ensures Trim(FormatDate(Some(d))) == FormatDate(Some(d)) && FormatDate(Some(d)) != ""
  {
    NumberOfDigits(d.year);
    var s := FormatDate(Some(d));
    assert s[|s| - 1] == DigitChar(d.day % 10);
    assert s[0] == YearText(d.year)[0] && IsDigit(s[0]);
    TrimKeepsTrimmed(s);
  }

  lemma ShortDateReadsBack(d: Date)
    requires RealDate(d) && d != ZERO_DATE && d.year < 10000
    ensures ParseDate(FormatDate(Some(d))) == Some(d)
  {
    FormattedIsTrimmed(d);
    NumberOfYear(d.year);
    NumberOfTwo(d.month);
    NumberOfTwo(d.day);
    var year, month, day := YearText(d.year), TwoDigits(d.month), TwoDigits(d.day);
    var s := year + "-" + month + "-" + day;
    assert s == FormatDate(Some(d));
    assert |s| == 10 && s[4] == '-' && s[7] == '-';
    assert s[..4] == year;
    assert s[5..7] == month;
    assert s[8..] == day;
  }

  lemma LongDateIsLost(d: Date)
    requires RealDate(d) && d.year >= 10000
    ensures ParseDate(FormatDate(Some(d))) == None
  {
    FormattedIsTrimmed(d);
    DigitsAreLong(d.year, 4);
    assert |FormatDate(Some(d))| > 10;
  }

  /** A formatted date reads back exactly when its year has four digits; a longer year is lost. */
  lemma ParseOfFormat(d: Date)
    requires RealDate(d) && d != ZERO_DATE
    ensures ParseDate(FormatDate(Some(d))) == if d.year < 10000 then Some(d) else None
  {
    if d.year < 10000 { ShortDateReadsBack(d); } else { LongDateIsLost(d); }
  }

  /** Counts are read with an optional sign; anything else counts as 0. */
  function ParseCount(text: string): int {
    var s := Trim(text);
    if s == "" then 0
    else if s[0] == '-' then 0 - NumberOrZero(s[1..])
    else if s[0] == '+' then NumberOrZero(s[1..])
    else NumberOrZero(s)
  }

  function NumberOrZero(s: string): nat {
    match Number(s)
    case Some(n) => n
    case None => 0
  }

  function FormatCount(n: int): string { if n <= 0 then "" else Digits(n) }

  lemma ParseOfCount(n: nat)
    requires n > 0
    ensures ParseCount(FormatCount(n)) == n && Trim(FormatCount(n)) == FormatCount(n) && FormatCount(n) != ""
  {
    NumberOfDigits(n);
    DigitsAreTrimmed(n);
  }

  // ----- the fields of a book -----

  /** The text forms the model does not spell out: description clean-up, language codes, ratings. */
  datatype Forms = Forms(
    clean: string -> string, lang: string -> string, formatRating: real -> string, parseRating: string -> real)

  /** f brings s into a normal form that ignores surrounding space. */
  predicate NormalAt(f: string -> string, s: string) { f(f(s)) == f(s) && f(Trim(s)) == f(s) && Trim(f(s)) == f(s) }

  predicate ReadsBack(k: Forms, x: real) {
    k.formatRating(x) != "" && Trim(k.formatRating(x)) == k.formatRating(x) && k.parseRating(k.formatRating(x)) == x
  }

  ghost predicate Lawful(k: Forms) {
    && k.clean("") == "" && k.lang("") == ""
    && (forall s :: NormalAt(k.clean, s)) && (forall s :: NormalAt(k.lang, s))
    && (forall x :: x > 0.0 ==> ReadsBack(k, x))
  }

  datatype Field = Description | ImageUrl | OriginalTitle | ReleaseDate | Language | AverageRating | RatingsCount

  datatype Book = Book(
    foreignId: string, provider: string, description: string, imageUrl: string, originalTitle: string,
    releaseDate: Option<Date>, language: string, averageRating: real, ratingsCount: int)

  predicate RealDates(b: Book) { b.releaseDate.Some? ==> RealDate(b.releaseDate.value) }

  function Serialize(k: Forms, b: Book, f: Field): string
    requires RealDates(b)
  {
    match f
    case Description => k.clean(b.description)
    case ImageUrl => Trim(b.imageUrl)
    case OriginalTitle => Trim(b.originalTitle)
    case ReleaseDate => FormatDate(b.releaseDate)
    case Language => k.lang(b.language)
    case AverageRating => if b.averageRating <= 0.0 then "" else k.formatRating(b.averageRating)
    case RatingsCount => FormatCount(b.ratingsCount)
  }

  function ApplyValue(k: Forms, b: Book, f: Field, v: string): (r: Book)
    ensures RealDates(b) ==> RealDates(r)
  {
    match f
    case Description => b.(description := k.clean(v))
    case ImageUrl => b.(imageUrl := Trim(v))
    case OriginalTitle => b.(originalTitle := Trim(v))
    case ReleaseDate => b.(releaseDate := ParseDate(v))
    case Language => b.(language := k.lang(v))
    case AverageRating => b.(averageRating := if Trim(v) == "" then 0.0 else k.parseRating(Trim(v)))
    case RatingsCount => b.(ratingsCount := ParseCount(v))
  }

  /** The form in which two values of a field are compared. */
  function Normalize(k: Forms, f: Field, v: string): string {
    match f
    case Description => k.clean(Trim(v))
    case Language => k.lang(Trim(v))
    case ImageUrl => Lower(Trim(v))
    case _ => Trim(v)
  }

  /** The normal form of what the book stores. */
  function Current(k: Forms, b: Book, f: Field): string
    requires RealDates(b)
  {
    Normalize(k, f, Serialize(k, b, f))
  }

  /** A value one of the two sources can offer. */
  ghost predicate Offered(k: Forms, f: Field, v: string) {
    match f
    case ReleaseDate => v == "" || exists d :: RealDate(d) && d != ZERO_DATE && v == FormatDate(Some(d))
    case AverageRating => v == "" || exists x :: x > 0.0 && v == k.formatRating(x)
    case RatingsCount => v == "" || exists n: nat :: n > 0 && v == FormatCount(n)
    case _ => true
  }

  /** A date text that does not read back: its year has more than four digits. */
  predicate TooLong(f: Field, v: string) { f == ReleaseDate && |Trim(v)| > 10 }

  lemma LengthOfDate(d: Date)
    requires RealDate(d) && d != ZERO_DATE
    ensures |Trim(FormatDate(Some(d)))| > 10 <==> d.year >= 10000
  {
    FormattedIsTrimmed(d);
    if d.year < 10000 { NumberOfYear(d.year); } else { DigitsAreLong(d.year, 4); }
  }

  /**
   * What applying an offered value stores: a value that compares equal to it, or no date where the year is too long.
   */
  lemma AppliedIsStored(k: Forms, b: Book, f: Field, v: string)
    requires Lawful(k) && RealDates(b) && Offered(k, f, v) && Normalize(k, f, v) != ""
    ensures Current(k, ApplyValue(k, b, f, v), f) == if TooLong(f, v) then "" else Normalize(k, f, v)
    ensures TooLong(f, v) ==> ApplyValue(k, b, f, v).releaseDate == None
  {
    match f
    case Description => assert NormalAt(k.clean, v) && NormalAt(k.clean, k.clean(v));
    case Language => assert NormalAt(k.lang, v) && NormalAt(k.lang, k.lang(v));
    case ImageUrl => TrimIdempotent(v);
    case OriginalTitle => TrimIdempotent(v);
    case ReleaseDate => AppliedDate(k, b, v);
    case AverageRating =>
      assert v != "" by { TrimKeepsTrimmed(""); }
      var x :| x > 0.0 && v == k.formatRating(x);
      assert ReadsBack(k, x);
    case RatingsCount =>
      assert v != "" by { TrimKeepsTrimmed(""); }
      var n: nat :| n > 0 && v == FormatCount(n);
      ParseOfCount(n);
  }

  lemma AppliedDate(k: Forms, b: Book, v: string)
    requires RealDates(b) && Offered(k, ReleaseDate, v) && Normalize(k, ReleaseDate, v) != ""
    ensures Current(k, ApplyValue(k, b, ReleaseDate, v), ReleaseDate) ==
            if TooLong(ReleaseDate, v) then "" else Normalize(k, ReleaseDate, v)
    ensures TooLong(ReleaseDate, v) ==> ApplyValue(k, b, ReleaseDate, v).releaseDate == None
  {
    TrimKeepsTrimmed("");
    assert v != "";
    var d :| RealDate(d) && d != ZERO_DATE && v == FormatDate(Some(d));
    ParseOfFormat(d);
    FormattedIsTrimmed(d);
    LengthOfDate(d);
  }

  lemma ApplyKeepsOtherFields(k: Forms, b: Book, f: Field, v: string, g: Field)
    requires f != g && RealDates(b)
    ensures Serialize(k, ApplyValue(k, b, f, v), g) == Serialize(k, b, g)
  {
  }
}
