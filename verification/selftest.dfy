/** The self-test that ships with the class, as a scenario over the model. */
module SelfTest {
  import opened PyStr
  import opened Codec
  import opened Store

  /** Record number `i` of the self-test: `recGen(i, "test-line-%s" % i, 10 * i)`. */
  function TestRecord(i: int): Record {
    Record(i, "test-line-" + ShowInt(i), ShowInt(10 * i))
  }

  lemma TestRecordStorable(i: int)
    ensures Storable(TestRecord(i))
  {
    ShowIntChars(i);
    ShowIntChars(10 * i);
    var prefix := "test-line-";
    assert TestRecord(i).desc == prefix + ShowInt(i);
    assert ',' !in prefix && '\n' !in prefix && '\r' !in prefix;
  }

  /** The list after the edit at index 1 holds serials 1 to 10 in order, all
      of them storable. */
  lemma EditedList(s: seq<Record>)
    requires |s| == 10 && s[1] == Record(2, "replaced-line-2", "99")
    requires forall j :: 0 <= j < 10 && j != 1 ==> s[j] == TestRecord(j + 1)
    ensures forall j :: 0 <= j < 10 ==> s[j].sn == j + 1 && Storable(s[j])
  {
    forall j | 0 <= j < 10
      ensures s[j].sn == j + 1 && Storable(s[j])
    {
      if j != 1 {
        TestRecordStorable(j + 1);
      }
    }
  }

  lemma FirstReloaded()
    ensures Reloaded(TestRecord(1)) == Record(1, " test-line-1", " 10")
  {
    assert ShowInt(1) == "1";
    assert ShowNat(10) == ShowNat(1) + [DigitChar(0)];
    assert ShowInt(10) == "10";
  }

  /** Appends the ten records of the self-test to an empty store. */
  method AppendTen(db: Ivdbase)
    requires db.dblist == [] && db.dblen == 0
    modifies db
    ensures db.Valid() && db.Consistent() && |db.dblist| == 10
    ensures forall j :: 0 <= j < 10 ==> db.dblist[j] == TestRecord(j + 1)
  {
    for i := 1 to 11
      invariant db.Valid() && db.Consistent() && |db.dblist| == i - 1
      invariant forall j :: 0 <= j < i - 1 ==> db.dblist[j] == TestRecord(j + 1)
    {
      var rc := db.Append(TestRecord(i));
    }
  }

  /** Fills an empty store with the ten records, then edits index 1 (which
      succeeds) and index 20 (which fails). */
  method FillAndEdit(db: Ivdbase) returns (edit: int, farEdit: int)
    requires db.dblist == [] && db.dblen == 0
    modifies db
    ensures edit == 0 && farEdit == -1
    ensures db.Valid() && db.Consistent() && |db.dblist| == 10
    ensures db.dblist[0] == TestRecord(1)
    ensures forall j :: 0 <= j < 10 ==> db.dblist[j].sn == j + 1 && Storable(db.dblist[j])
  {
    AppendTen(db);
    edit := db.Replace(1, Record(2, "replaced-line-2", "99"));
    farEdit := db.Replace(20, Record(20, "impossible", "999"));
    EditedList(db.dblist);
  }

  /** Replace on an empty store fails, loading a missing file answers -1,
      ten appended records can be edited at index 1 but not at index 20,
      serial 5 sits at index 4, and saving, resetting and loading gives back
      all ten records, the first as `(1, " test-line-1", " 10")`. */
  method Run(files: Files)
      returns (emptyReplace: int, missing: Outcome<int>, edit: int, farEdit: int,
               found: Outcome<int>, saved: int, loaded: Outcome<int>, first: Outcome<Option<Record>>)
    requires "./foo-bar.csv" !in files
    ensures emptyReplace == -1 && missing == Return(-1)
    ensures edit == 0 && farEdit == -1
    ensures found == Return(4)
    ensures saved == 10 && loaded == Return(10)
    ensures first == Return(Some(Record(1, " test-line-1", " 10")))
  {
    var db := new Ivdbase();
    emptyReplace := db.Replace(0, Record(1, "impossible", "88"));
    missing := db.Load("./foo-bar.csv", files);
    edit, farEdit := FillAndEdit(db);
    found := db.IndexOfSN(IntArg(5));
    assert found == Return(4) by {
      assert db.dblist[4].sn == 5;
      if found.value >= 0 {
        assert db.dblist[found.value].sn == found.value + 1;
      }
    }
    saved, loaded := SaveResetLoad(db, "./test.csv", files);
    FirstReloaded();
    first := db.Read(0);
  }
}
