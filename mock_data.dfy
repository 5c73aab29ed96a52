/**
 * The fixture of src/utils/mockData.ts as a concrete scenario. Its timestamps
 * come from the clock when the module loads, so they are a parameter here.
 */
module MockData {
  import opened Wrappers
  import opened Types
  import opened NoticeOrder
  import opened DirectoryBuild
  import opened DirectoriesSlice
  import opened DirectoryForest
  import opened DirectoryLinks

  function MockDirectories(): seq<Directory>
  {
    [ Directory("1", "Corporative", None, Absent, Some(false)),
      Directory("2", "Private", None, Absent, Some(false)),
      Directory("3", "Family", None, Absent, Some(true)),
      Directory("4", "Passwords", None, Absent, Some(false)),
      Directory("5", "Other activities", None, Absent, Some(false)) ]
  }

  function MockNotices(stamp: string): seq<Notice>
  {
    [ Notice("1", "3", "Future birthdays", "19.09 - Alice\n21.10 - Bob\n23.10 - Marry", ["Family", "Important"], 0, stamp, stamp),
      Notice("2", "3", "Daily tasks", "Morning routine:\n- Check emails\n- Review calendar\n- Plan priorities", ["Family"], 1, stamp, stamp),
      Notice("3", "3", "Budget", "Monthly budget tracking and expense planning", ["Finance", "Important"], 2, stamp, stamp),
      Notice("4", "1", "Meeting Notes", "Q4 planning meeting notes and action items", ["Work", "Meetings"], 0, stamp, stamp),
      Notice("5", "2", "Book List", "Books to read this year", ["Personal", "Reading"], 0, stamp, stamp) ]
  }

  /** Fetching the fixture with nothing selected selects directory '3', 'Family'. */
  lemma FetchSelectsFamily()
    ensures FindByName(MockDirectories(), FamilyName) == Some(MockDirectories()[2])
    ensures MockDirectories()[2].id == "3"
  {
    var ds := MockDirectories();
    assert ds[0].name != FamilyName && ds[1].name != FamilyName && ds[2].name == FamilyName;
    assert ds[1..][1..] == ds[2..];
  }

  /** Every fixture directory has a null parent, so the fetched forest is the five directories as roots, in order. */
  lemma FetchedForestIsFiveRoots()
    ensures IdsOf(Build(MockDirectories())) == ["1", "2", "3", "4", "5"]
  {
    var ds := MockDirectories();
    var nodes := NodeMap(ds);
    assert ds[..1][..0] == [];
    assert RootIds(ds[..1], nodes) == ["1"];
    assert ds[..2][..1] == ds[..1];
    assert RootIds(ds[..2], nodes) == ["1", "2"];
    assert ds[..3][..2] == ds[..2];
    assert RootIds(ds[..3], nodes) == ["1", "2", "3"];
    assert ds[..4][..3] == ds[..3];
    assert RootIds(ds[..4], nodes) == ["1", "2", "3", "4"];
    assert ds[..4] == ds[..|ds| - 1];
    BuildRootsAreTheOrphans(ds);
  }

  /** The fixture's ids are distinct and it has no parent links, so its forest holds each directory once. */
  lemma FixtureHoldsEachDirectoryOnce()
    ensures |Subtrees(Build(MockDirectories()))| == 5
  {
    var ds := MockDirectories();
    assert IdsOf(ds) == ["1", "2", "3", "4", "5"];
    BuildHoldsEachRecordOnce(ds, _ => 0);
  }

  /** Directory '3' holds the first three notices, at positions 0 to 2; the others are the last two. */
  lemma FamilyHoldsThree(stamp: string)
    ensures OfDirectory(MockNotices(stamp), "3") == MockNotices(stamp)[..3]
    ensures OtherDirectories(MockNotices(stamp), "3") == MockNotices(stamp)[3..]
    ensures forall i :: 0 <= i < 3 ==> MockNotices(stamp)[i].position == i
  {
    var ns := MockNotices(stamp);
    assert ns == ns[..3] + ns[3..];
    OfDirectoryAppend(ns[..3], ns[3..], "3");
    OfDirectoryOfOwn(ns[..3], "3");
    OtherDirectoriesOfOthers(ns[3..], "3");
  }

  /**
   * Dragging the first Family notice to the last slot moves Family's block
   * behind the other directories' notices and renumbers it.
   */
  lemma ReorderMovesBlockToEnd(stamp: string)
    ensures
      var ns := MockNotices(stamp);
      SpliceStart(0, |OfDirectory(ns, "3")|) < |OfDirectory(ns, "3")| &&
      Reordered(ns, 0, 2, "3") == [ns[3], ns[4], ns[1].(position := 0), ns[2].(position := 1), ns[0].(position := 2)]
  {
    var ns := MockNotices(stamp);
    FamilyHoldsThree(stamp);
    var block := ns[..3];
    assert block[..0] + block[1..] == [ns[1], ns[2]];
    assert Moved(block, 0, 2) == [ns[1], ns[2], ns[0]];
  }
}
