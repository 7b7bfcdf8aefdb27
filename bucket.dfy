/**
 * The hour bucket a record falls into and the name of the output file for
 * it, `yyyy.MM.dd_HH.gz`. Both stream variants carry an identical copy of
 * this formatter; it is modelled once. The calendar fields are taken as
 * given: reading the clock and converting it to local time are not modelled.
 */
module HourBucket {
  import opened Decimal
  import opened Maybe

  /** Local calendar time truncated to the hour. */
  datatype Bucket = Bucket(year: nat, month: nat, day: nat, hour: nat)

  /** The ranges a calendar supplies: month 1-12, day 1-31, hour 0-23. */
  predicate WellFormed(b: Bucket) {
    1 <= b.month <= 12 && 1 <= b.day <= 31 && b.hour <= 23
  }

  /** `getOutputFilename`: the year padded to at least four digits, then month,
      day and hour padded to two, joined as `yyyy.MM.dd_HH`, then `.gz`. */
  function OutputFilename(b: Bucket): (name: string)
    ensures |name| >= 16
    ensures name[|name| - 3..] == ".gz"
  {
    Padded(b.year, 4) + "." + Padded(b.month, 2) + "." + Padded(b.day, 2)
      + "_" + Padded(b.hour, 2) + ".gz"
  }

  /** Reads a bucket back from a file name of the shape OutputFilename produces. */
  function ParseFilename(s: string): Option<Bucket> {
    if |s| < 16 then None
    else
      var k := |s| - 12;
      if s[k] == '.' && s[k + 3] == '.' && s[k + 6] == '_' && s[k + 9..] == ".gz"
         && AllDigits(s[..k]) && AllDigits(s[k + 1..k + 3])
         && AllDigits(s[k + 4..k + 6]) && AllDigits(s[k + 7..k + 9])
      then Some(Bucket(Value(s[..k]), Value(s[k + 1..k + 3]), Value(s[k + 4..k + 6]), Value(s[k + 7..k + 9])))
      else None
  }

  /** The file name of a bucket determines the bucket. */
  lemma {:induction false} ParseOutputFilename(b: Bucket)
    requires WellFormed(b)
    ensures ParseFilename(OutputFilename(b)) == Some(b)
  {
    var y, mo, d, h := Padded(b.year, 4), Padded(b.month, 2), Padded(b.day, 2), Padded(b.hour, 2);
    assert Pow10(2) == 100;
    PaddedWidth(b.month, 2);
    PaddedWidth(b.day, 2);
    PaddedWidth(b.hour, 2);
    PaddedValue(b.year, 4);
    PaddedValue(b.month, 2);
    PaddedValue(b.day, 2);
    PaddedValue(b.hour, 2);
    ParseAssembled(y, mo, d, h);
  }

  /** Any four digit texts of the right widths, assembled into a name, are
      read back field by field. */
  lemma ParseAssembled(y: string, mo: string, d: string, h: string)
    requires |y| >= 4 && |mo| == 2 && |d| == 2 && |h| == 2
    requires AllDigits(y) && AllDigits(mo) && AllDigits(d) && AllDigits(h)
    ensures ParseFilename(y + "." + mo + "." + d + "_" + h + ".gz")
         == Some(Bucket(Value(y), Value(mo), Value(d), Value(h)))
  {
    var s := y + "." + mo + "." + d + "_" + h + ".gz";
    var k := |y|;
    assert |s| == k + 12 && s[k] == '.' && s[k + 3] == '.' && s[k + 6] == '_' && s[k + 9..] == ".gz"
      && s[..k] == y && s[k + 1..k + 3] == mo && s[k + 4..k + 6] == d && s[k + 7..k + 9] == h by {
      NameLayout(y, mo, d, h);
    }
    ParseShaped(s, k, y, mo, d, h);
  }

  lemma ParseShaped(s: string, k: nat, y: string, mo: string, d: string, h: string)
    requires |s| == k + 12 && k >= 4
    requires s[k] == '.' && s[k + 3] == '.' && s[k + 6] == '_' && s[k + 9..] == ".gz"
    requires s[..k] == y && s[k + 1..k + 3] == mo && s[k + 4..k + 6] == d && s[k + 7..k + 9] == h
    requires AllDigits(y) && AllDigits(mo) && AllDigits(d) && AllDigits(h)
    ensures ParseFilename(s) == Some(Bucket(Value(y), Value(mo), Value(d), Value(h)))
  {
  }

  /** Where the fields sit in a name assembled from a year text and three
      two-character fields. */
  lemma NameLayout(y: string, mo: string, d: string, h: string)
    requires |mo| == 2 && |d| == 2 && |h| == 2
    ensures var s := y + "." + mo + "." + d + "_" + h + ".gz";
      var k := |y|;
      && |s| == k + 12
      && s[k] == '.' && s[k + 3] == '.' && s[k + 6] == '_' && s[k + 9..] == ".gz"
      && s[..k] == y && s[k + 1..k + 3] == mo && s[k + 4..k + 6] == d && s[k + 7..k + 9] == h
  {
  }

  /** Records in different hours go to different files; records in the same
      hour go to the same file (OutputFilename is a function). */
  lemma DistinctHoursDistinctFiles(b1: Bucket, b2: Bucket)
    requires WellFormed(b1) && WellFormed(b2)
    ensures OutputFilename(b1) == OutputFilename(b2) <==> b1 == b2
  {
    ParseOutputFilename(b1);
    ParseOutputFilename(b2);
  }

  /** For a four-digit year the name is exactly `dddd.dd.dd_dd.gz`. */
  lemma FilenameLayout(b: Bucket)
    requires WellFormed(b) && b.year <= 9999
    ensures var s := OutputFilename(b);
      && |s| == 16
      && s[4] == '.' && s[7] == '.' && s[10] == '_' && s[13..] == ".gz"
      && AllDigits(s[..4]) && AllDigits(s[5..7]) && AllDigits(s[8..10]) && AllDigits(s[11..13])
  {
    assert Pow10(2) == 100;
    assert Pow10(4) == 10000;
    PaddedWidth(b.year, 4);
    PaddedWidth(b.month, 2);
    PaddedWidth(b.day, 2);
    PaddedWidth(b.hour, 2);
    var s := OutputFilename(b);
    assert s[..4] == Padded(b.year, 4);
    assert s[5..7] == Padded(b.month, 2);
    assert s[8..10] == Padded(b.day, 2);
    assert s[11..13] == Padded(b.hour, 2);
  }
}
