/**
 * The records of src/data/index.ts that the timeline shows, and their year keys.
 */
module TimelineFixture {
  import opened Options
  import opened YearKey
  import opened Timeline

  const MSc := Item(Some("M.Sc. IT - Artificial Intelligence"), None, None,
                    Some("Parul University"), None, Some("2024 - 2026"), None)
  const BSc := Item(Some("B.Sc. IT - Artificial Intelligence"), None, None,
                    Some("Parul Institute of Computer Application"), None, Some("2021 - 2024"), None)
  const Hsc := Item(Some("12th Grade (HSC)"), None, None,
                    Some("Delta Science School, Upleta"), None, Some("2021"), None)
  const Ssc := Item(Some("10th Grade (SSC)"), None, None,
                    Some("Sanskar Vidyalaya, Jamjodhpur"), None, Some("2019"), None)
  const Internship := Item(None, Some("Software Developer Intern"), None,
                           None, Some("Green Global Online"), None, Some("Oct 2023 - Apr 2024"))
  const FullStack := Item(None, None, Some("Full-Stack Developer Training"),
                          Some("Parul Institute of Computer Application"), None, None, Some("May 2025 - Jul 2025"))

  lemma YearOfBScRange()
    ensures GetYear("2021 - 2024") == 2024
  {
    var s := "2021 - 2024";
    assert !FourDigitsAt(s, 1) && !FourDigitsAt(s, 2) && !FourDigitsAt(s, 3) && !FourDigitsAt(s, 4) && !FourDigitsAt(s, 5) && !FourDigitsAt(s, 6);
    assert FourDigitsAt(s, 0) && FourDigitsAt(s, 7);
    assert Scan(s, 11) == [];
    assert Scan(s, 7) == [7];
    assert Scan(s, 6) == [7];
    assert Scan(s, 5) == [7];
    assert Scan(s, 4) == [7];
    assert Scan(s, 0) == [0, 7];
  }

  lemma YearOfHsc()
    ensures GetYear("2021") == 2021
  {
    var s := "2021";
    assert FourDigitsAt(s, 0);
    assert Scan(s, 4) == [];
    assert Scan(s, 0) == [0];
  }

  lemma YearOfSsc()
    ensures GetYear("2019") == 2019
  {
    var s := "2019";
    assert FourDigitsAt(s, 0);
    assert Scan(s, 4) == [];
    assert Scan(s, 0) == [0];
  }

  lemma ScanTailOfInternship()
    ensures Scan("Oct 2023 - Apr 2024", 8) == [15]
  {
    var s := "Oct 2023 - Apr 2024";
    assert FourDigitsAt(s, 15);
    assert !FourDigitsAt(s, 8) && !FourDigitsAt(s, 9) && !FourDigitsAt(s, 10) && !FourDigitsAt(s, 11);
    assert !FourDigitsAt(s, 12) && !FourDigitsAt(s, 13) && !FourDigitsAt(s, 14);
    assert Scan(s, 19) == [];
    assert Scan(s, 15) == [15];
    assert Scan(s, 14) == [15];
    assert Scan(s, 13) == [15];
    assert Scan(s, 12) == [15];
    assert Scan(s, 11) == [15];
    assert Scan(s, 10) == [15];
    assert Scan(s, 9) == [15];
    assert Scan(s, 8) == [15];
  }

  lemma YearOfInternship()
    ensures GetYear("Oct 2023 - Apr 2024") == 2024
  {
    var s := "Oct 2023 - Apr 2024";
    ScanTailOfInternship();
    assert FourDigitsAt(s, 4);
    assert !FourDigitsAt(s, 0) && !FourDigitsAt(s, 1) && !FourDigitsAt(s, 2) && !FourDigitsAt(s, 3);
    assert Scan(s, 4) == [4, 15];
    assert Scan(s, 3) == [4, 15];
    assert Scan(s, 2) == [4, 15];
    assert Scan(s, 1) == [4, 15];
    assert Scan(s, 0) == [4, 15];
    assert Runs(s) == [WindowValue(s, 4), WindowValue(s, 15)];
  }


  lemma ScanTailOfFullStack()
    ensures Scan("May 2025 - Jul 2025", 8) == [15]
  {
    var s := "May 2025 - Jul 2025";
    assert FourDigitsAt(s, 15);
    assert !FourDigitsAt(s, 8) && !FourDigitsAt(s, 9) && !FourDigitsAt(s, 10) && !FourDigitsAt(s, 11);
    assert !FourDigitsAt(s, 12) && !FourDigitsAt(s, 13) && !FourDigitsAt(s, 14);
    assert Scan(s, 19) == [];
    assert Scan(s, 15) == [15];
    assert Scan(s, 14) == [15];
    assert Scan(s, 13) == [15];
    assert Scan(s, 12) == [15];
    assert Scan(s, 11) == [15];
    assert Scan(s, 10) == [15];
    assert Scan(s, 9) == [15];
    assert Scan(s, 8) == [15];
  }

  lemma YearOfFullStack()
    ensures GetYear("May 2025 - Jul 2025") == 2025
  {
    var s := "May 2025 - Jul 2025";
    ScanTailOfFullStack();
    assert FourDigitsAt(s, 4);
    assert !FourDigitsAt(s, 0) && !FourDigitsAt(s, 1) && !FourDigitsAt(s, 2) && !FourDigitsAt(s, 3);
    assert Scan(s, 4) == [4, 15];
    assert Scan(s, 3) == [4, 15];
    assert Scan(s, 2) == [4, 15];
    assert Scan(s, 1) == [4, 15];
    assert Scan(s, 0) == [4, 15];
    assert Runs(s) == [WindowValue(s, 4), WindowValue(s, 15)];
  }


  /** The year keys of the six records: 2026, 2024, 2021, 2019, 2024 and 2025. */
  lemma FixtureKeys()
    ensures Key(Entry(MSc, Education)) == 2026 && Key(Entry(BSc, Education)) == 2024
    ensures Key(Entry(Hsc, Education)) == 2021 && Key(Entry(Ssc, Education)) == 2019
    ensures Key(Entry(Internship, Experience)) == 2024 && Key(Entry(FullStack, Training)) == 2025
  {
    YearOfRange();
    YearOfBScRange();
    YearOfHsc();
    YearOfSsc();
    YearOfInternship();
    YearOfFullStack();
  }
}
