/** The state PrefixHQ's main window keeps and changes: the local database of
    installed games and custom names, the last manifest scan, and the table of
    orphaned prefixes (compatdata directories of games that are not installed). */
module PrefixHQ {
  import opened Wrappers
  import opened Text
  import opened Manifests
  import opened Store

  /** One entry of the compatdata directory. */
  datatype DirEntry = DirEntry(name: string, isDir: bool)

  /** One row of the orphan table: the prefix's appid and the name shown for it. */
  datatype Row = Row(appid: string, name: string)

  /** The contents of `games.json`. */
  datatype LocalDb = LocalDb(installedGames: map<string, string>, customNames: map<string, string>)

  /** `load_local_db`: the saved database, or two empty maps when there is none. */
  function LoadLocalDb(saved: Option<LocalDb>): (db: LocalDb)
    ensures saved.None? ==> db.installedGames == map[] && db.customNames == map[]
    ensures saved.Some? ==> db == saved.value
  {
    match saved
    case None => LocalDb(map[], map[])
    case Some(db) => db
  }

  /** `dict.update`: every entry of `updates` is added, replacing an older one
      with the same key, and every other entry stays. */
  function Update(m: map<string, string>, updates: map<string, string>): (r: map<string, string>)
    ensures r.Keys == m.Keys + updates.Keys
    ensures forall k :: k in updates ==> r[k] == updates[k]
    ensures forall k :: k in m && k !in updates ==> r[k] == m[k]
  {
    m + updates
  }

  /** Updating twice with the same scan is updating once. */
  lemma UpdateIdempotent(m: map<string, string>, updates: map<string, string>)
    ensures Update(Update(m, updates), updates) == Update(m, updates)
  {
    var once, twice := Update(m, updates), Update(Update(m, updates), updates);
    assert twice.Keys == once.Keys;
    forall k | k in once ensures twice[k] == once[k] {
      if k !in updates {
        assert twice[k] == once[k];
      }
    }
  }

  /** A compatdata entry gets a row: a directory whose name is all digits,
      neither installed nor ignored. */
  predicate IsOrphan(e: DirEntry, installed: map<string, string>) {
    e.isDir && IsDigitString(e.name) && e.name !in installed && e.name !in IgnoreAppIds
  }

  /** The name a row shows: the custom name if the user set one, else what the
      store lookup gives for the appid's number. The lookup is made either way. */
  function DisplayName(appid: string, customNames: map<string, string>, lookup: string -> StoreReply): string {
    var fetched := GetGameName(appid, lookup(RequestId(appid)));
    if appid in customNames then customNames[appid] else fetched
  }

  /** The rows `populate_table` inserts, in directory order. */
  function OrphanRows(entries: seq<DirEntry>, installed: map<string, string>, customNames: map<string, string>,
                      lookup: string -> StoreReply): (rows: seq<Row>)
    ensures |rows| <= |entries|
    ensures forall k :: 0 <= k < |rows| ==>
      IsDigitString(rows[k].appid) && rows[k].appid !in installed && rows[k].appid !in IgnoreAppIds
  {
    if entries == [] then []
    else
      var e := entries[|entries| - 1];
      var rows := OrphanRows(entries[..|entries| - 1], installed, customNames, lookup);
      if IsOrphan(e, installed) then rows + [Row(e.name, DisplayName(e.name, customNames, lookup))] else rows
  }

  /** The table after `populate_table`: empty when compatdata does not exist. */
  function TableRows(compatdata: Option<seq<DirEntry>>, installed: map<string, string>,
                     customNames: map<string, string>, lookup: string -> StoreReply): seq<Row> {
    match compatdata
    case None => []
    case Some(entries) => OrphanRows(entries, installed, customNames, lookup)
  }

  /** Every row comes from an orphan entry of the same name. */
  lemma {:induction false} RowFromOrphan(entries: seq<DirEntry>, installed: map<string, string>,
                                         customNames: map<string, string>, lookup: string -> StoreReply, k: nat)
    requires k < |OrphanRows(entries, installed, customNames, lookup)|
    ensures exists j :: 0 <= j < |entries| && entries[j].name == OrphanRows(entries, installed, customNames, lookup)[k].appid
                        && IsOrphan(entries[j], installed)
  {
    var init := entries[..|entries| - 1];
    var rows := OrphanRows(entries, installed, customNames, lookup);
    var rows' := OrphanRows(init, installed, customNames, lookup);
    if k < |rows'| {
      assert rows[k] == rows'[k];
      RowFromOrphan(init, installed, customNames, lookup, k);
      var j :| 0 <= j < |init| && init[j].name == rows'[k].appid && IsOrphan(init[j], installed);
      assert entries[j] == init[j];
    } else {
      assert rows[k].appid == entries[|entries| - 1].name;
    }
  }

  /** Every orphan entry has a row with its name. */
  lemma {:induction false} OrphanHasRow(entries: seq<DirEntry>, installed: map<string, string>,
                                        customNames: map<string, string>, lookup: string -> StoreReply, j: nat)
    requires j < |entries| && IsOrphan(entries[j], installed)
    ensures exists k :: 0 <= k < |OrphanRows(entries, installed, customNames, lookup)|
                        && OrphanRows(entries, installed, customNames, lookup)[k].appid == entries[j].name
  {
    var init := entries[..|entries| - 1];
    var rows := OrphanRows(entries, installed, customNames, lookup);
    var rows' := OrphanRows(init, installed, customNames, lookup);
    if j < |init| {
      assert init[j] == entries[j];
      OrphanHasRow(init, installed, customNames, lookup, j);
      var k :| 0 <= k < |rows'| && rows'[k].appid == entries[j].name;
      assert rows[k] == rows'[k];
    } else {
      assert rows[|rows| - 1].appid == entries[j].name;
    }
  }

  /** An appid has a row iff some entry with that name is an orphan. */
  lemma OrphanRowsIff(entries: seq<DirEntry>, installed: map<string, string>,
                      customNames: map<string, string>, lookup: string -> StoreReply, id: string)
    ensures (exists k :: 0 <= k < |OrphanRows(entries, installed, customNames, lookup)|
               && OrphanRows(entries, installed, customNames, lookup)[k].appid == id)
        <==> (exists j :: 0 <= j < |entries| && entries[j].name == id && IsOrphan(entries[j], installed))
  {
    var rows := OrphanRows(entries, installed, customNames, lookup);
    if k :| 0 <= k < |rows| && rows[k].appid == id {
      RowFromOrphan(entries, installed, customNames, lookup, k);
    }
    if j :| 0 <= j < |entries| && entries[j].name == id && IsOrphan(entries[j], installed) {
      OrphanHasRow(entries, installed, customNames, lookup, j);
    }
  }

  /** Every row shows its custom name when there is one, and the lookup's answer
      (a placeholder when the lookup failed) otherwise. */
  lemma {:induction false} OrphanRowsNamed(entries: seq<DirEntry>, installed: map<string, string>,
                                           customNames: map<string, string>, lookup: string -> StoreReply)
    ensures forall k :: 0 <= k < |OrphanRows(entries, installed, customNames, lookup)| ==>
      var r := OrphanRows(entries, installed, customNames, lookup)[k];
      && (r.appid in customNames ==> r.name == customNames[r.appid])
      && (r.appid !in customNames ==> r.name == GetGameName(r.appid, lookup(RequestId(r.appid))))
      && (r.appid !in customNames && (lookup(RequestId(r.appid)).Failed? || lookup(RequestId(r.appid)).NoDetails?) ==>
            r.name == Placeholder(r.appid))
  {
    if entries != [] {
      OrphanRowsNamed(entries[..|entries| - 1], installed, customNames, lookup);
    }
  }

  /** Entry names are unique in a directory, and then so are the rows' appids. */
  lemma {:induction false} OrphanRowsDistinct(entries: seq<DirEntry>, installed: map<string, string>,
                                              customNames: map<string, string>, lookup: string -> StoreReply)
    requires forall i, j :: 0 <= i < j < |entries| ==> entries[i].name != entries[j].name
    ensures forall k, l :: 0 <= k < l < |OrphanRows(entries, installed, customNames, lookup)| ==>
      OrphanRows(entries, installed, customNames, lookup)[k].appid
        != OrphanRows(entries, installed, customNames, lookup)[l].appid
  {
    if entries != [] {
      var init := entries[..|entries| - 1];
      var e := entries[|entries| - 1];
      var rows := OrphanRows(entries, installed, customNames, lookup);
      var rows' := OrphanRows(init, installed, customNames, lookup);
      OrphanRowsDistinct(init, installed, customNames, lookup);
      if IsOrphan(e, installed) {
        forall k | 0 <= k < |rows'| ensures rows'[k].appid != e.name {
          RowFromOrphan(init, installed, customNames, lookup, k);
          var j :| 0 <= j < |init| && init[j].name == rows'[k].appid && IsOrphan(init[j], installed);
          assert init[j] == entries[j];
        }
      }
    }
  }

  /** The name a rename stores: the input without surrounding whitespace, if the
      dialog was accepted and that is not empty. */
  function AcceptedName(input: string, ok: bool): (r: Option<string>)
    ensures r.Some? <==> ok && !AllSpace(input)
    ensures r.Some? ==> r.value == Strip(input)
    ensures r.Some? ==> !IsSpace(r.value[0]) && !IsSpace(r.value[|r.value| - 1])
  {
    var name := Strip(input);
    if ok && name != [] then Some(name) else None
  }

  class MainWindow {
    var db: LocalDb
    var installedGames: map<string, string>
    var rows: seq<Row>

    /** The latest scan holds only real appids and is in the database with the same names. */
    ghost predicate ScanRecorded()
      reads this
    {
      && (forall id :: id in installedGames ==> IsDigitString(id) && id !in IgnoreAppIds)
      && (forall id :: id in installedGames ==> id in db.installedGames && db.installedGames[id] == installedGames[id])
    }

    /** ... and every row of the table is an orphan of that scan. */
    ghost predicate Valid()
      reads this
    {
      && ScanRecorded()
      && (forall k :: 0 <= k < |rows| ==>
            IsDigitString(rows[k].appid) && rows[k].appid !in installedGames && rows[k].appid !in IgnoreAppIds)
    }

    /** `__init__`: load the database, scan the manifests, merge the scan into the
        database and fill the table. */
    constructor (saved: Option<LocalDb>, manifests: seq<ManifestFile>, compatdata: Option<seq<DirEntry>>,
                 lookup: string -> StoreReply)
      ensures Valid()
      ensures installedGames == IndexManifests(manifests)
      ensures db.installedGames == Update(LoadLocalDb(saved).installedGames, installedGames)
      ensures db.customNames == LoadLocalDb(saved).customNames
      ensures rows == TableRows(compatdata, installedGames, db.customNames, lookup)
    {
      var loaded := LoadLocalDb(saved);
      var games := GetInstalledGames(manifests);
      installedGames := games;
      db := loaded.(installedGames := Update(loaded.installedGames, games));
      rows := [];
      new;
      var _ := PopulateTable(compatdata, lookup);
    }

    /** `populate_table`: one row per orphaned prefix; returns the count it logs,
        or `None` when compatdata is missing and nothing is counted. */
    method PopulateTable(compatdata: Option<seq<DirEntry>>, lookup: string -> StoreReply) returns (reported: Option<nat>)
      requires ScanRecorded()
      modifies this`rows
      ensures Valid()
      ensures rows == TableRows(compatdata, installedGames, db.customNames, lookup)
      ensures reported == if compatdata.None? then None else Some(|rows|)
    {
      rows := [];
      if compatdata.None? {
        return None;
      }
      var entries := compatdata.value;
      var row := 0;
      for i := 0 to |entries|
        invariant rows == OrphanRows(entries[..i], installedGames, db.customNames, lookup)
        invariant row == |rows|
      {
        assert entries[..i + 1][..i] == entries[..i];
        var entry := entries[i];
        if !entry.isDir {
          continue;
        }
        var appid := entry.name;
        if !IsDigitString(appid) {
          continue;
        }
        if appid in installedGames || appid in IgnoreAppIds {
          continue;
        }
        var fetched := GetGameName(appid, lookup(RequestId(appid)));
        var gameName := if appid in db.customNames then db.customNames[appid] else fetched;
        rows := rows + [Row(appid, gameName)];
        row := row + 1;
      }
      assert entries[..|entries|] == entries;
      reported := Some(row);
    }

    /** `refresh`: scan again, merge the scan into the database, refill the table. */
    method Refresh(manifests: seq<ManifestFile>, compatdata: Option<seq<DirEntry>>, lookup: string -> StoreReply)
      returns (reported: Option<nat>)
      requires Valid()
      modifies this
      ensures Valid()
      ensures installedGames == IndexManifests(manifests)
      ensures db.installedGames == Update(old(db.installedGames), installedGames)
      ensures db.customNames == old(db.customNames)
      ensures rows == TableRows(compatdata, installedGames, db.customNames, lookup)
      ensures reported == if compatdata.None? then None else Some(|rows|)
    {
      var games := GetInstalledGames(manifests);
      installedGames := games;
      db := db.(installedGames := Update(db.installedGames, games));
      reported := PopulateTable(compatdata, lookup);
    }

    /** `rename_game`: with exactly one row selected and a non-blank name entered,
        store the stripped name as that appid's custom name and show it. */
    method RenameGame(selected: seq<int>, input: string, ok: bool) returns (renamed: bool)
      requires Valid()
      requires forall k :: 0 <= k < |selected| ==> 0 <= selected[k] < |rows|
      modifies this
      ensures Valid()
      ensures renamed <==> |selected| == 1 && AcceptedName(input, ok).Some?
      ensures renamed ==> db.customNames == old(db.customNames)[old(rows)[selected[0]].appid := Strip(input)]
      ensures renamed ==> rows == old(rows)[selected[0] := Row(old(rows)[selected[0]].appid, Strip(input))]
      ensures !renamed ==> db.customNames == old(db.customNames) && rows == old(rows)
      ensures db.installedGames == old(db.installedGames) && installedGames == old(installedGames)
    {
      if |selected| != 1 {
        return false;
      }
      var row := selected[0];
      var appid := rows[row].appid;
      var name := AcceptedName(input, ok);
      renamed := name.Some?;
      if renamed {
        db := db.(customNames := db.customNames[appid := name.value]);
        rows := rows[row := Row(appid, name.value)];
      }
    }
  }
}
