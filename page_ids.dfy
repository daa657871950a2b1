/** Page identity on the server: a page of an uploaded file is named
    `${filename}_page_${i}`, a name that determines the file and the index. */
module PageIds {

  predicate IsDigit(c: char) {
    '0' <= c <= '9'
  }

  predicate AllDigits(s: string) {
    forall k :: 0 <= k < |s| ==> IsDigit(s[k])
  }

  function DigitChar(d: nat): (c: char)
    requires d < 10
    ensures IsDigit(c)
  {
    ('0' as int + d) as char
  }

  function DigitValue(c: char): (d: nat)
    requires IsDigit(c)
    ensures d < 10 && DigitChar(d) == c
  {
    c as int - '0' as int
  }

  /** JavaScript's template rendering `${i}` of a non-negative integer:
      decimal digits, most significant first, no leading zero. */
  function Decimal(n: nat): (s: string)
    ensures |s| > 0 && AllDigits(s)
    ensures |s| > 1 ==> s[0] != '0'
  {
    if n < 10 then [DigitChar(n)] else Decimal(n / 10) + [DigitChar(n % 10)]
  }

  /** The value of a string of decimal digits. */
  function ParseDecimal(s: string): nat
    requires AllDigits(s)
  {
    if s == [] then 0 else ParseDecimal(s[..|s| - 1]) * 10 + DigitValue(s[|s| - 1])
  }

  /** Reading back the rendered index gives the index. */
  lemma {:induction false} ParseDecimalOfDecimal(n: nat)
    ensures ParseDecimal(Decimal(n)) == n
  {
    if n >= 10 {
      var s := Decimal(n);
      assert s[..|s| - 1] == Decimal(n / 10);
      ParseDecimalOfDecimal(n / 10);
    }
  }

  const PageMarker: string := "_page_"

  /** The id the upload handler gives page `index` of the stored file
      `filename`: the file name, then the marker, then the decimal index. */
  function PageId(filename: string, index: nat): (id: string)
    ensures |id| == |filename| + |PageMarker| + |Decimal(index)|
    ensures id[..|filename|] == filename
    ensures id[|filename|..|filename| + |PageMarker|] == PageMarker
    ensures id[|filename| + |PageMarker|..] == Decimal(index)
  {
    filename + PageMarker + Decimal(index)
  }

  /** Two ids are equal exactly when they name the same file and the same
      index: the digits after the final `_page_` contain no `_`, so the
      marker is found at the same place in both. */
  lemma {:induction false} PageIdInjective(f1: string, i1: nat, f2: string, i2: nat)
    ensures PageId(f1, i1) == PageId(f2, i2) <==> f1 == f2 && i1 == i2
  {
    if PageId(f1, i1) == PageId(f2, i2) {
      var id := PageId(f1, i1);
      var d1, d2 := Decimal(i1), Decimal(i2);
      MarkerBeforeDigits(f1, i1);
      MarkerBeforeDigits(f2, i2);
      assert |d1| == |d2|;
      assert d1 == id[|id| - |d1|..] == d2;
      ParseDecimalOfDecimal(i1);
      ParseDecimalOfDecimal(i2);
      assert f1 == id[..|f1|] == f2;
    }
  }

  /** In an id, the rendered index is preceded by the `_` that ends the
      marker, and consists of digits only. */
  lemma {:induction false} MarkerBeforeDigits(filename: string, index: nat)
    ensures var id, d := PageId(filename, index), Decimal(index);
      && id[|id| - |d| - 1] == '_'
      && forall k :: |id| - |d| <= k < |id| ==> IsDigit(id[k])
  {
    var id, d := PageId(filename, index), Decimal(index);
    assert id[|id| - |d| - 1] == PageMarker[5];
    forall k | |id| - |d| <= k < |id|
      ensures IsDigit(id[k])
    {
      assert id[k] == d[k - (|id| - |d|)];
    }
  }
}
