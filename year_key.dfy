/**
 * The `getYear` helper of the timeline sort (src/components/sections/Experience.tsx).
 *
 * `str.match(/\d{4}/g)` scans the string left to right and collects every run of four
 * ASCII digits, resuming after the end of each match, so matches never overlap; the
 * helper returns the largest of their numeric values, or 0 when there is none.
 */
module YearKey {

  import opened Chars

  function DigitValue(c: char): (d: nat)
    requires IsDigit(c)
    ensures d <= 9
  {
    (c as int) - ('0' as int)
  }

  /** `\d{4}` matches at position p. */
  predicate FourDigitsAt(s: string, p: nat)
  {
    p + 4 <= |s| && IsDigit(s[p]) && IsDigit(s[p + 1]) && IsDigit(s[p + 2]) && IsDigit(s[p + 3])
  }

  /** `Number` of the four matched characters. */
  function WindowValue(s: string, p: nat): (v: nat)
    requires FourDigitsAt(s, p)
    ensures v <= 9999
  {
    1000 * DigitValue(s[p]) + 100 * DigitValue(s[p + 1]) + 10 * DigitValue(s[p + 2]) + DigitValue(s[p + 3])
  }

  /** The start positions, from position i on, of the matches of the global scan. */
  function Scan(s: string, i: nat): (r: seq<nat>)
    ensures forall k :: 0 <= k < |r| ==> i <= r[k] && FourDigitsAt(s, r[k])
    ensures forall k :: 0 <= k < |r| - 1 ==> r[k] + 4 <= r[k + 1]
    decreases |s| - i
  {
    if i + 4 > |s| then []
    else if FourDigitsAt(s, i) then [i] + Scan(s, i + 4)
    else Scan(s, i + 1)
  }

  /** Every four-digit window from position i on is matched, or lies inside an earlier match:
      the scan skips no run. */
  lemma {:induction false} ScanCoversEveryWindow(s: string, i: nat, q: nat)
    requires i <= q && FourDigitsAt(s, q)
    ensures exists k :: 0 <= k < |Scan(s, i)| && Scan(s, i)[k] <= q < Scan(s, i)[k] + 4
    decreases |s| - i
  {
    var r := Scan(s, i);
    if FourDigitsAt(s, i) {
      assert r == [i] + Scan(s, i + 4);
      if q < i + 4 {
        assert r[0] <= q < r[0] + 4;
      } else {
        ScanCoversEveryWindow(s, i + 4, q);
        var k :| 0 <= k < |Scan(s, i + 4)| && Scan(s, i + 4)[k] <= q < Scan(s, i + 4)[k] + 4;
        assert r[k + 1] == Scan(s, i + 4)[k];
      }
    } else {
      assert q != i;
      assert r == Scan(s, i + 1);
      ScanCoversEveryWindow(s, i + 1, q);
    }
  }

  /** The matches of `str.match(/\d{4}/g)`, as numbers, in the order found. */
  function Runs(s: string): (vs: seq<nat>)
    ensures forall x :: x in vs ==> x <= 9999
  {
    var m := Scan(s, 0);
    seq(|m|, k requires 0 <= k < |m| => WindowValue(s, m[k]))
  }

  /** The scan finds nothing exactly when the string holds no four consecutive digits. */
  lemma RunsEmptyIff(s: string)
    ensures Runs(s) == [] <==> forall p :: !FourDigitsAt(s, p)
  {
    if Runs(s) == [] {
      forall p | FourDigitsAt(s, p) ensures false {
        ScanCoversEveryWindow(s, 0, p);
      }
    } else {
      assert FourDigitsAt(s, Scan(s, 0)[0]);
    }
  }

  /** `Math.max` of a non-empty list; 0 for the empty list, standing for `match` being null. */
  function MaxOrZero(xs: seq<nat>): (m: nat)
    ensures xs == [] ==> m == 0
    ensures xs != [] ==> m in xs
    ensures forall x :: x in xs ==> x <= m
  {
    if xs == [] then 0
    else
      var rest := MaxOrZero(xs[1..]);
      assert forall x :: x in xs ==> x == xs[0] || x in xs[1..];
      if xs[0] >= rest then xs[0] else rest
  }

  /** The year key of a date string. */
  function GetYear(s: string): (y: nat)
    ensures y <= 9999
    ensures Runs(s) == [] ==> y == 0
    ensures Runs(s) != [] ==> y in Runs(s) && forall x :: x in Runs(s) ==> x <= y
  {
    MaxOrZero(Runs(s))
  }

  /** A string with no run of four digits, the empty string among them, has year key 0. */
  lemma NoRunGivesZero(s: string)
    requires forall p :: !FourDigitsAt(s, p)
    ensures GetYear(s) == 0
  {
    RunsEmptyIff(s);
  }

  /** A range of years takes its later year. */
  lemma YearOfRange()
    ensures Runs("2024 - 2026") == [2024, 2026]
    ensures GetYear("2024 - 2026") == 2026
  {
    var s := "2024 - 2026";
    assert FourDigitsAt(s, 0);
    assert !FourDigitsAt(s, 4) && !FourDigitsAt(s, 5) && !FourDigitsAt(s, 6);
    assert FourDigitsAt(s, 7);
    assert Scan(s, 11) == [];
    assert Scan(s, 7) == [7];
    assert Scan(s, 4) == [7];
    assert Scan(s, 0) == [0, 7];
  }

  /** Five digits in a row hold one match: the scan resumes after it, at the fifth digit. */
  lemma FiveDigitsHoldOneRun()
    ensures Runs("12345") == [1234]
    ensures GetYear("12345") == 1234
  {
    var s := "12345";
    assert FourDigitsAt(s, 0);
    assert Scan(s, 4) == [];
    assert Scan(s, 0) == [0];
  }
}
