/** The names given to the two downloads of src/App.tsx. */
module Naming {

  const PdfExtension: string := ".pdf"

  predicate OccursAt(s: string, pat: string, i: nat) {
    i + |pat| <= |s| && s[i..i + |pat|] == pat
  }

  predicate Occurs(s: string, pat: string) {
    exists i: nat :: i <= |s| && OccursAt(s, pat, i)
  }

  /**
   * `s.replaceAll(pat, '')`: scanning from the left, every occurrence of `pat`
   * that does not overlap an earlier one is dropped.
   */
  function RemoveAll(s: string, pat: string): (r: string)
    requires |pat| > 0
    ensures |r| <= |s|
    decreases |s|
  {
    if |s| < |pat| then s
    else if s[..|pat|] == pat then RemoveAll(s[|pat|..], pat)
    else [s[0]] + RemoveAll(s[1..], pat)
  }

  /** Removal only deletes: the result's characters, counted with multiplicity, are among the name's. */
  lemma {:induction false} RemoveAllDeletesOnly(s: string, pat: string)
    requires |pat| > 0
    ensures multiset(RemoveAll(s, pat)) <= multiset(s)
    decreases |s|
  {
    if |s| >= |pat| {
      if s[..|pat|] == pat {
        RemoveAllDeletesOnly(s[|pat|..], pat);
        assert s == s[..|pat|] + s[|pat|..];
      } else {
        RemoveAllDeletesOnly(s[1..], pat);
        assert s == [s[0]] + s[1..];
      }
    }
  }

  /** The watermarked PDF's name: the upload's name with every ".pdf" removed, then "_watermark.pdf". */
  function PdfExportName(fileName: string): (r: string)
    ensures |fileName| + 14 >= |r| >= 14 && r[|r| - 14..] == "_watermark.pdf"
  {
    RemoveAll(fileName, PdfExtension) + "_watermark.pdf"
  }

  /** A name without any occurrence of the pattern comes through unchanged. */
  lemma {:induction false} RemoveAllAbsent(s: string, pat: string)
    requires |pat| > 0 && !Occurs(s, pat)
    ensures RemoveAll(s, pat) == s
    decreases |s|
  {
    if |s| >= |pat| {
      assert !OccursAt(s, pat, 0);
      forall i: nat | i <= |s[1..]|
        ensures !OccursAt(s[1..], pat, i)
      {
        assert !OccursAt(s, pat, i + 1);
        if i + |pat| <= |s[1..]| {
          assert s[1..][i..i + |pat|] == s[i + 1..i + 1 + |pat|];
        }
      }
      RemoveAllAbsent(s[1..], pat);
      assert s == [s[0]] + s[1..];
    }
  }

  /**
   * Every ".pdf" is removed wherever it stands: an occurrence splits the name
   * into two parts that are cleaned independently. No occurrence can start
   * inside `a` and run into the ".pdf" that follows, because no proper prefix
   * of ".pdf" is also a suffix of it.
   */
  lemma {:induction false} RemoveAllSplit(a: string, b: string)
    ensures RemoveAll(a + PdfExtension + b, PdfExtension)
         == RemoveAll(a, PdfExtension) + RemoveAll(b, PdfExtension)
    decreases |a|
  {
    var pat := PdfExtension;
    var s := a + pat + b;
    if a == [] {
      assert s[..|pat|] == pat && s[|pat|..] == b;
    } else if |a| >= |pat| && a[..|pat|] == pat {
      assert s[..|pat|] == pat && s[|pat|..] == a[|pat|..] + pat + b;
      RemoveAllSplit(a[|pat|..], b);
    } else {
      assert s[..|pat|] != pat by {
        if |a| >= |pat| {
          assert s[..|pat|] == a[..|pat|];
        } else {
          assert s[..|pat|][|a|] == pat[0] && pat[|a|] != pat[0];
        }
      }
      assert s[0] == a[0] && s[1..] == a[1..] + pat + b;
      RemoveAllSplit(a[1..], b);
      if |a| < |pat| {
        assert a == [a[0]] + a[1..];
      }
    }
  }

  /** A trailing ".pdf" is removed whatever precedes it. */
  lemma RemoveAllTrailingPdf(base: string)
    ensures RemoveAll(base + PdfExtension, PdfExtension) == RemoveAll(base, PdfExtension)
  {
    RemoveAllSplit(base, []);
    assert base + PdfExtension + [] == base + PdfExtension;
  }

  /** The ordinary case: "report.pdf" is saved as "report_watermark.pdf". */
  lemma PdfExportNameOfPlainName(base: string)
    requires !Occurs(base, PdfExtension)
    ensures PdfExportName(base + PdfExtension) == base + "_watermark.pdf"
  {
    RemoveAllTrailingPdf(base);
    RemoveAllAbsent(base, PdfExtension);
  }

  predicate IsDigit(c: char) {
    '0' <= c <= '9'
  }

  predicate AllDigits(s: string) {
    forall i :: 0 <= i < |s| ==> IsDigit(s[i])
  }

  function DigitChar(d: nat): char
    requires d < 10
  {
    (('0' as int) + d) as char
  }

  /**
   * The decimal text of a natural number, as a template literal renders the
   * integers below 10^21 (larger ones switch to exponent notation).
   */
  function Decimal(n: nat): (s: string)
    ensures |s| > 0 && AllDigits(s)
    ensures s[0] == '0' ==> n == 0
    decreases n
  {
    if n < 10 then [DigitChar(n)] else Decimal(n / 10) + [DigitChar(n % 10)]
  }

  /** The number a string of decimal digits denotes. */
  function DecimalValue(s: string): nat
    requires AllDigits(s)
  {
    if s == [] then 0
    else DecimalValue(s[..|s| - 1]) * 10 + ((s[|s| - 1] as int) - ('0' as int))
  }

  /** Reading the decimal text back gives the number. */
  lemma {:induction false} DecimalRoundTrip(n: nat)
    ensures DecimalValue(Decimal(n)) == n
    decreases n
  {
    if n >= 10 {
      DecimalRoundTrip(n / 10);
      var s := Decimal(n);
      assert s[..|s| - 1] == Decimal(n / 10);
    }
  }

  /** The blank export's name: `watermark_<w>x<h>@2x.png`. */
  function PngExportName(w: nat, h: nat): (r: string)
    ensures |r| >= 17 && r[..10] == "watermark_" && r[|r| - 7..] == "@2x.png"
  {
    "watermark_" + Decimal(w) + "x" + Decimal(h) + "@2x.png"
  }

  /** Two blank exports of different sizes never share a name. */
  lemma PngExportNameInjective(w1: nat, h1: nat, w2: nat, h2: nat)
    requires PngExportName(w1, h1) == PngExportName(w2, h2)
    ensures w1 == w2 && h1 == h2
  {
    var d1, e1, d2, e2 := Decimal(w1), Decimal(h1), Decimal(w2), Decimal(h2);
    var m1, m2 := d1 + "x" + e1, d2 + "x" + e2;
    var n1, n2 := PngExportName(w1, h1), PngExportName(w2, h2);
    assert n1 == "watermark_" + m1 + "@2x.png";
    assert n2 == "watermark_" + m2 + "@2x.png";
    assert m1 == n1[10..|n1| - 7];
    assert m2 == n2[10..|n2| - 7];
    assert m1 == m2;
    assert m1[|d1|] == 'x' && m2[|d2|] == 'x';
    assert forall j :: 0 <= j < |d1| ==> m1[j] == d1[j] && m1[j] != 'x';
    assert forall j :: 0 <= j < |d2| ==> m2[j] == d2[j] && m2[j] != 'x';
    assert |d1| == |d2|;
    assert d1 == m1[..|d1|] && d2 == m2[..|d2|];
    assert e1 == m1[|d1| + 1..] && e2 == m2[|d2| + 1..];
    DecimalRoundTrip(w1);
    DecimalRoundTrip(w2);
    DecimalRoundTrip(h1);
    DecimalRoundTrip(h2);
  }
}
