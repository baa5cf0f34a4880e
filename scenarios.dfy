/** A caller's view: what the contracts of Storage let a client conclude. */
module Scenarios {
  import opened Wrappers
  import opened Tables
  import opened Storage
  import PlayerQueries

  /**
   * A first join inserts the player with the next id; a rejoin under a new
   * name answers the stored record and rewrites the username; the startup
   * scan then finds the new name.
   */
  method JoinThenRejoin(defaults: ColumnDefaults)
  {
    var db := new SQLDatabase(map[], 1, [], 1, map[]);
    var first := db.PlayerJoin("U1", "Ash", defaults, {});
    assert first == Some(Minted("U1", 1));
    assert PlayerQueries.FetchPlayerData(db.players, "U1", false).value.oldName == "Ash";
    var again := db.PlayerJoin("U1", "Ash2", defaults, {});
    assert again.Some? && again.value.Loaded? && again.value.oldName == "Ash" && again.value.id == 1;
    assert db.players["U1"].username == "Ash2";
    var c := new Caches();
    db.WarmCaches(c, {});
    assert c.names["U1"] == "Ash2";
  }
}
