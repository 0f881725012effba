/**
 * Fuzzy matching of an invoice address against the fixed building directory:
 * the first building with the highest similarity wins, and only a similarity
 * above 50 counts as a match.
 */
module Buildings {
  import opened Wrappers

  /** A directory entry. */
  datatype Building = Building(id: int, address: string)

  /** The directory the service ships with, in its fixed order. */
  const BuildingDb: seq<Building> := [
    Building(1, "Musterstraße 1, 12345 Berlin"),
    Building(2, "Beispielweg 3, 54321 München"),
    Building(3, "Schmelzhüttenstr. 39, 07545 Gera")
  ]

  /** A `fuzz.partial_ratio` similarity. */
  type Score = s: int | 0 <= s <= 100

  /** Scores at or below this are not a match. */
  const Threshold := 50

  /** The loop state of `match_building`: the building kept so far and its score. */
  datatype Lead = Lead(best: Option<Building>, score: int)

  /** The similarity of `address` to the `j`-th directory entry, in the argument order the source uses. */
  function Similarity(address: string, db: seq<Building>, ratio: (string, string) -> Score, j: int): Score
    requires 0 <= j < |db|
  {
    ratio(address, db[j].address)
  }

  /** The state after scanning all of `db`, starting from no building and score 0, replacing only on a strictly higher score. */
  function Leader(address: string, db: seq<Building>, ratio: (string, string) -> Score): Lead
    decreases |db|
  {
    if db == [] then Lead(None, 0)
    else
      var prev := Leader(address, db[..|db| - 1], ratio);
      var s := ratio(address, db[|db| - 1].address);
      if s > prev.score then Lead(Some(db[|db| - 1]), s) else prev
  }

  /** What `match_building` returns: the leader, if its score passes the threshold. */
  function BuildingMatch(address: string, db: seq<Building>, ratio: (string, string) -> Score): Option<Building> {
    var lead := Leader(address, db, ratio);
    if lead.score > Threshold then lead.best else None
  }

  /** Entry `k` has the highest similarity, and every entry before it a strictly lower one. */
  ghost predicate FirstBest(address: string, db: seq<Building>, ratio: (string, string) -> Score, k: int) {
    && 0 <= k < |db|
    && (forall j :: 0 <= j < |db| ==> Similarity(address, db, ratio, j) <= Similarity(address, db, ratio, k))
    && (forall j :: 0 <= j < k ==> Similarity(address, db, ratio, j) < Similarity(address, db, ratio, k))
  }

  /** The scan keeps the first entry of maximal positive score, or nothing when every score is 0. */
  lemma {:induction false} LeaderIsFirstBest(address: string, db: seq<Building>, ratio: (string, string) -> Score)
    ensures var lead := Leader(address, db, ratio);
      && (forall j :: 0 <= j < |db| ==> Similarity(address, db, ratio, j) <= lead.score)
      && (lead.best.None? ==> lead.score == 0)
      && (lead.best.Some? ==>
            lead.score > 0 &&
            exists k :: FirstBest(address, db, ratio, k) && lead.best == Some(db[k])
                        && Similarity(address, db, ratio, k) == lead.score)
    decreases |db|
  {
    if db != [] {
      var n := |db| - 1;
      var p := db[..n];
      var prev := Leader(address, p, ratio);
      LeaderIsFirstBest(address, p, ratio);
      var s := Similarity(address, db, ratio, n);
      assert forall j :: 0 <= j < n ==> Similarity(address, p, ratio, j) == Similarity(address, db, ratio, j);
      if s > prev.score {
        assert FirstBest(address, db, ratio, n);
      } else if prev.best.Some? {
        var k :| FirstBest(address, p, ratio, k) && prev.best == Some(p[k])
                 && Similarity(address, p, ratio, k) == prev.score;
        assert FirstBest(address, db, ratio, k);
      }
    }
  }

  /** At most one entry is the first with the highest score. */
  lemma FirstBestUnique(address: string, db: seq<Building>, ratio: (string, string) -> Score, k1: int, k2: int)
    requires FirstBest(address, db, ratio, k1) && FirstBest(address, db, ratio, k2)
    ensures k1 == k2
  {
    var s1, s2 := Similarity(address, db, ratio, k1), Similarity(address, db, ratio, k2);
    if k1 < k2 {
      assert false;
    } else if k2 < k1 {
      assert false;
    }
  }

  /**
   * `match_building` returns the first directory entry with the highest
   * score when that score exceeds 50, and `None` exactly when no entry
   * scores above 50. A returned building is always a directory entry, and
   * never one whose score is 50 or less.
   */
  lemma {:induction false} MatchIsFirstBestAboveThreshold(address: string, db: seq<Building>,
                                                         ratio: (string, string) -> Score)
    ensures BuildingMatch(address, db, ratio).None? <==>
      forall j :: 0 <= j < |db| ==> Similarity(address, db, ratio, j) <= Threshold
    ensures forall k :: FirstBest(address, db, ratio, k) && Similarity(address, db, ratio, k) > Threshold ==>
      BuildingMatch(address, db, ratio) == Some(db[k])
    ensures BuildingMatch(address, db, ratio).Some? ==>
      exists k :: FirstBest(address, db, ratio, k) && Similarity(address, db, ratio, k) > Threshold
                  && BuildingMatch(address, db, ratio) == Some(db[k])
    ensures BuildingMatch(address, db, ratio).Some? ==> BuildingMatch(address, db, ratio).value in db
  {
    LeaderIsFirstBest(address, db, ratio);
    var lead := Leader(address, db, ratio);
    if lead.best.Some? {
      var k :| FirstBest(address, db, ratio, k) && lead.best == Some(db[k])
               && Similarity(address, db, ratio, k) == lead.score;
      forall k' | FirstBest(address, db, ratio, k') && Similarity(address, db, ratio, k') > Threshold
        ensures BuildingMatch(address, db, ratio) == Some(db[k'])
      {
        FirstBestUnique(address, db, ratio, k, k');
      }
      if lead.score > Threshold {
        assert Similarity(address, db, ratio, k) > Threshold;
      }
    }
  }

  /** `match_building`: one pass over the directory keeping the strictly better entry. */
  method MatchBuilding(address: string, db: seq<Building>, ratio: (string, string) -> Score)
    returns (r: Option<Building>)
    ensures r == BuildingMatch(address, db, ratio)
  {
    var best: Option<Building> := None;
    var score := 0;
    for i := 0 to |db|
      invariant Lead(best, score) == Leader(address, db[..i], ratio)
    {
      assert db[..i + 1][..i] == db[..i];
      var s := ratio(address, db[i].address);
      if s > score {
        best, score := Some(db[i]), s;
      }
    }
    assert db[..|db|] == db;
    r := if score > Threshold then best else None;
  }
}
