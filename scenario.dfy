/** A worked merge of two small patches with one colliding id. */
module MergeScenario {
  import opened Wrappers
  import opened Patch
  import opened Bounds
  import opened Offset
  import opened Collisions
  import opened Merge
  import opened MergeProperties

  /** First patch: modules 1 and 2, the lower one on row 3. */
  const Doc1 := Document(KnownKeys, "1.1.6",
    [Module(1, 0, 0, Absent, Present(2), ""), Module(2, 5, 3, Present(1), Absent, "")], [])

  /** Second patch: modules 2 and 5 on rows 0 and 1, joined by cable 7. */
  const Doc2 := Document(KnownKeys, "1.1.6",
    [Module(2, 0, 0, Absent, Absent, ""), Module(5, 0, 1, Absent, Absent, "")],
    [Cable(7, Present(2), Present(5), "")])

  /** The id spaces of the two patches, and the one id they share. */
  lemma ScenarioIds()
    ensures IdSpace(Doc1) == {1, 2}
    ensures IdSpace(Doc2) == {2, 5, 7}
    ensures IdSpace(Doc1) * IdSpace(Doc2) == {2}
  {
    var ids1, ids2 := IdSpace(Doc1), IdSpace(Doc2);
    assert Doc1.modules[0] in Doc1.modules && Doc1.modules[1] in Doc1.modules;
    assert Doc2.modules[0] in Doc2.modules && Doc2.modules[1] in Doc2.modules;
    assert Doc2.cables[0] in Doc2.cables;
    assert ids1 == {1, 2} by {
      forall x ensures x in ids1 <==> x == 1 || x == 2 {
      }
    }
    assert ids2 == {2, 5, 7} by {
      forall x ensures x in ids2 <==> x == 2 || x == 5 || x == 7 {
      }
    }
    assert ids1 * ids2 == {2} by {
      forall x ensures x in ids1 * ids2 <==> x == 2 {
      }
    }
  }

  /** The largest id of the two patches. */
  lemma ScenarioTop()
    ensures SetMax({1, 2} + {2, 5, 7}) == 7
  {
    var all: set<int> := {1, 2} + {2, 5, 7};
    assert 7 in all;
    forall y | y in all ensures y <= 7 {
    }
    assert IsGreatest(7, all);
  }

  /** The one colliding id, in order. */
  lemma ScenarioInter()
    ensures SortedElements({2}) == [2]
  {
    var inter := SortedElements({2});
    assert |inter| == 1;
    assert inter[0] in inter;
  }

  /** Only id 2 collides; it is renumbered to one past the largest id, 7. */
  lemma ScenarioRenamer()
    ensures Renamer(Doc1, Doc2) == Renaming([2], map[2 := 8])
  {
    ScenarioIds();
    ScenarioTop();
    ScenarioInter();
    assert Renamer(Doc1, Doc2) == Renaming([2], ReplaceTable([2], 7));
    assert ReplaceTable([2], 7) == map[2 := 8] by {
      assert [2][..0] == [];
    }
  }

  /** The lowest row of the first patch. */
  lemma ScenarioBottom()
    ensures BoundingBox(Doc1.modules).maxRow == 3
  {
    assert Doc1.modules[..1] == [Doc1.modules[0]];
  }

  /** The second patch's modules moved four rows down. */
  lemma ScenarioMoved()
    ensures Shifted(Doc2.modules, 4) ==
      [Module(2, 0, 4, Absent, Absent, ""), Module(5, 0, 5, Absent, Absent, "")]
  {
  }

  /** The second patch's modules moved and renumbered. */
  lemma ScenarioModules()
    ensures var p := Prepared(Doc1, Doc2);
      && |p.modules| == 2
      && p.modules[0] == Module(8, 0, 4, Absent, Absent, "")
      && p.modules[1] == Module(5, 0, 5, Absent, Absent, "")
  {
    ScenarioRenamer();
    ScenarioBottom();
    ScenarioMoved();
    PreparedSteps(Doc1, Doc2);
    var r := Renaming([2], map[2 := 8]);
    assert r.Apply(2) == 8 && r.Apply(5) == 5;
  }

  /** The cable of the second patch follows the renamed module. */
  lemma ScenarioCables()
    ensures var p := Prepared(Doc1, Doc2);
      && |p.cables| == 1
      && p.cables[0] == Cable(7, Present(8), Present(5), "")
  {
    ScenarioRenamer();
    PreparedSteps(Doc1, Doc2);
    var r := Renaming([2], map[2 := 8]);
    assert r.Apply(2) == 8 && r.Apply(5) == 5 && r.Apply(7) == 7;
  }

  /** Module 2 of the second patch becomes 8 (one past the largest id 7),
      its rows move to 4 and 5, below row 3 of the first patch, and the
      cable follows the renamed module. */
  lemma ScenarioMerge()
    ensures Merged(Doc1, Doc2).result.Ok?
    ensures var out := Merged(Doc1, Doc2).result.value;
      && |out.modules| == 4
      && out.modules[0].id == 1 && out.modules[1].id == 2
      && out.modules[2].id == 8 && out.modules[3].id == 5
      && out.modules[2].row == 4 && out.modules[3].row == 5
      && |out.cables| == 1
      && out.cables[0] == Cable(7, Present(8), Present(5), "")
  {
    ScenarioModules();
    ScenarioCables();
    var p := Prepared(Doc1, Doc2);
    assert Merged(Doc1, Doc2).result == Ok(Concatenated(Doc1, p));
  }
}
