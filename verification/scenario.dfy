/** A worked pick: three cards, two rated, over a 1000x500 client area. */
module Scenario {

  import opened Wrappers
  import opened DraftSort
  import opened Layout
  import opened Overlay

  const BasicLand := Card("0044", None, ["Land"], [], None)
  const Shock := Card("Shock", None, ["Instant"], ["R"], None)
  const Opt := Card("Opt", None, ["Instant"], ["U"], None)
  const Ratings: map<string, real> := map["Shock" := 80.0, "Opt" := 60.0]
  const Client := Rect(100, 100, 1100, 600)

  lemma OptKey()
    ensures DraftSortKey(Opt) == SortKey(3, 0, 1, "Opt")
  {
    assert "Opt"[0] == 'O' && !Text.IsDigitChar('O');
    assert ["U"][..0] == [];
  }

  lemma ShockKey()
    ensures DraftSortKey(Shock) == SortKey(3, 0, 3, "Shock")
  {
    assert "Shock"[0] == 'S' && !Text.IsDigitChar('S');
    assert ["R"][..0] == [];
  }

  lemma BasicLandKey()
    ensures DraftSortKey(BasicLand) == SortKey(3, 1, 32, "0044")
  {
    assert Text.IsDigitString("0044");
  }

  /** Blue before red, both before the unresolved land. */
  lemma ScenarioSortOrder()
    ensures SortPack([BasicLand, Shock, Opt]) == [Opt, Shock, BasicLand]
  {
    OptKey();
    ShockKey();
    BasicLandKey();
    assert [BasicLand, Shock, Opt][1..] == [Shock, Opt];
    assert [Shock, Opt][1..] == [Opt];
    assert [Opt][1..] == [];
    assert SortPack([Opt]) == [Opt];
    assert Insert(Shock, [Opt]) == [Opt] + Insert(Shock, []);
    assert SortPack([Shock, Opt]) == [Opt, Shock];
    assert [Opt, Shock][1..] == [Shock];
    assert Insert(BasicLand, [Shock]) == [Shock] + Insert(BasicLand, []);
    assert Insert(BasicLand, [Opt, Shock]) == [Opt] + Insert(BasicLand, [Shock]);
  }

  /** One badge row across the calibrated grid. */
  lemma ScenarioPositions()
    ensures CardPositions(3, Client, DefaultCalibration) == [Point(286, 266), Point(369, 266), Point(453, 266)]
  {
    PositionOfCard(3, Client, DefaultCalibration, 0);
    PositionOfCard(3, Client, DefaultCalibration, 1);
    PositionOfCard(3, Client, DefaultCalibration, 2);
  }

  /** Shock, the highest-rated card, alone gets the best-in-pack colours. */
  lemma ScenarioBestInPack()
    ensures PackRatings([Opt, Shock, BasicLand], Ratings) == [60.0, 80.0, 0.0]
    ensures !IsBest([60.0, 80.0, 0.0], 0) && IsBest([60.0, 80.0, 0.0], 1) && !IsBest([60.0, 80.0, 0.0], 2)
  {
    var rs := PackRatings([Opt, Shock, BasicLand], Ratings);
    assert rs == [60.0, 80.0, 0.0];
    IsBestCharacterised(rs, 0);
    IsBestCharacterised(rs, 1);
    IsBestCharacterised(rs, 2);
  }
}
