/** Indexing of the Steam application manifests (`*.acf`) into an appid -> name map. */
module Manifests {
  import opened Wrappers
  import opened Text
  import opened Patterns

  /** Steam runtimes and redistributables that are never treated as games. */
  const IgnoreAppIds: set<string> := {"1070560", "228980", "1391110", "1628350", "0"}

  /** The name shown for an application whose name is unknown: `(AppID <id>)`. */
  function Placeholder(appid: string): (r: string)
    ensures |r| == |appid| + 8
    ensures r[..7] == "(AppID " && r[7..|r| - 1] == appid && r[|r| - 1] == ')'
  {
    "(AppID " + appid + ")"
  }

  /** A manifest file as the glob yields it: its text (decoded, undecodable bytes
      dropped) or a failure to open or read it. */
  datatype ManifestFile = Read(content: string) | Unreadable

  datatype Entry = Entry(appid: string, name: string)

  /** What one manifest contributes: the first `"appid"` match, unless ignored,
      with the first `"name"` match or the placeholder. */
  function ManifestEntry(f: ManifestFile): (r: Option<Entry>)
    ensures r.Some? ==> IsDigitString(r.value.appid) && r.value.appid !in IgnoreAppIds
    ensures r.Some? ==> |r.value.name| > 0
  {
    match f
    case Unreadable => None
    case Read(content) =>
      match FirstGroup(content, AppIdPattern)
      case None => None
      case Some(appid) =>
        if appid in IgnoreAppIds then None
        else
          var name := match FirstGroup(content, NamePattern)
            case Some(n) => n
            case None => Placeholder(appid);
          Some(Entry(appid, name))
  }

  /** What each file contributes, in glob order. */
  function Entries(files: seq<ManifestFile>): (r: seq<Option<Entry>>)
    ensures |r| == |files| && forall k :: 0 <= k < |files| ==> r[k] == ManifestEntry(files[k])
  {
    seq(|files|, k requires 0 <= k < |files| => ManifestEntry(files[k]))
  }

  /** The appid an entry is stored under, if any. */
  function AppIdOf(e: Option<Entry>): Option<string> {
    match e
    case None => None
    case Some(e) => Some(e.appid)
  }

  /** The dictionary that `games[appid] = name`, applied entry by entry, builds. */
  function Accumulate(entries: seq<Option<Entry>>): map<string, string> {
    if entries == [] then map[]
    else
      var games := Accumulate(entries[..|entries| - 1]);
      match entries[|entries| - 1]
      case None => games
      case Some(e) => games[e.appid := e.name]
  }

  /** The map `get_installed_games` builds from the files in glob order. */
  function IndexManifests(files: seq<ManifestFile>): map<string, string> {
    Accumulate(Entries(files))
  }

  /** `get_installed_games`: accumulate the entries of all manifests into one map. */
  method GetInstalledGames(files: seq<ManifestFile>) returns (games: map<string, string>)
    ensures games == IndexManifests(files)
    ensures forall id :: id in games ==> IsDigitString(id) && id !in IgnoreAppIds
  {
    games := map[];
    for i := 0 to |files|
      invariant games == Accumulate(Entries(files)[..i])
    {
      assert Entries(files)[..i + 1][..i] == Entries(files)[..i];
      var entry := ManifestEntry(files[i]);
      if entry.Some? {
        games := games[entry.value.appid := entry.value.name];
      }
    }
    assert Entries(files)[..|files|] == Entries(files);
    IndexKeys(files);
  }

  /** The keys of the index are exactly the appids some manifest contributes. */
  lemma IndexKeys(files: seq<ManifestFile>)
    ensures forall id :: id in IndexManifests(files) <==>
      exists j :: 0 <= j < |files| && AppIdOf(ManifestEntry(files[j])) == Some(id)
    ensures forall id :: id in IndexManifests(files) ==> IsDigitString(id) && id !in IgnoreAppIds
  {
    var entries := Entries(files);
    AccumulateKeys(entries);
    forall id | id in IndexManifests(files) ensures IsDigitString(id) && id !in IgnoreAppIds {
      var j :| 0 <= j < |entries| && AppIdOf(entries[j]) == Some(id);
      assert entries[j] == ManifestEntry(files[j]);
    }
  }

  /** The ignored runtimes never become keys, whatever the manifests say. */
  lemma IgnoredNeverIndexed(files: seq<ManifestFile>, id: string)
    requires id in IgnoreAppIds
    ensures id !in IndexManifests(files)
  {
    IndexKeys(files);
  }

  /** Only the appids of the entries become keys, and all of them do. */
  lemma {:induction false} AccumulateKeys(entries: seq<Option<Entry>>)
    ensures forall id :: id in Accumulate(entries) <==>
      exists j :: 0 <= j < |entries| && AppIdOf(entries[j]) == Some(id)
  {
    if entries != [] {
      var init := entries[..|entries| - 1];
      AccumulateKeys(init);
      forall id ensures id in Accumulate(entries) <==>
        exists j :: 0 <= j < |entries| && AppIdOf(entries[j]) == Some(id)
      {
        if id in Accumulate(entries) && id in Accumulate(init) {
          var j :| 0 <= j < |init| && AppIdOf(init[j]) == Some(id);
          assert entries[j] == init[j];
        }
        if exists j :: 0 <= j < |entries| && AppIdOf(entries[j]) == Some(id) {
          var j :| 0 <= j < |entries| && AppIdOf(entries[j]) == Some(id);
          if j < |init| {
            assert init[j] == entries[j];
          }
        }
      }
    }
  }

  /** Last writer wins: an appid is stored with the name of the last entry that
      carries it. */
  lemma {:induction false} AccumulateLastWins(entries: seq<Option<Entry>>, j: nat)
    requires j < |entries| && entries[j].Some?
    requires forall l :: j < l < |entries| ==> AppIdOf(entries[l]) != AppIdOf(entries[j])
    ensures entries[j].value.appid in Accumulate(entries)
    ensures Accumulate(entries)[entries[j].value.appid] == entries[j].value.name
  {
    var last := |entries| - 1;
    var init := entries[..last];
    if j < last {
      assert init[j] == entries[j];
      forall l | j < l < |init| ensures AppIdOf(init[l]) != AppIdOf(init[j]) {
        assert init[l] == entries[l];
      }
      AccumulateLastWins(init, j);
      assert AppIdOf(entries[last]) != AppIdOf(entries[j]);
    }
  }

  /** When two manifests share an appid, the one the glob yields later names it. */
  lemma IndexLastWins(files: seq<ManifestFile>, j: nat)
    requires j < |files| && ManifestEntry(files[j]).Some?
    requires forall l :: j < l < |files| ==> AppIdOf(ManifestEntry(files[l])) != AppIdOf(ManifestEntry(files[j]))
    ensures ManifestEntry(files[j]).value.appid in IndexManifests(files)
    ensures IndexManifests(files)[ManifestEntry(files[j]).value.appid] == ManifestEntry(files[j]).value.name
  {
    AccumulateLastWins(Entries(files), j);
  }

  /** An entry-less position changes nothing, wherever it stands. */
  lemma {:induction false} AccumulateSkipsNone(xs: seq<Option<Entry>>, ys: seq<Option<Entry>>)
    ensures Accumulate(xs + [None] + ys) == Accumulate(xs + ys)
  {
    if ys == [] {
      assert xs + [None] + ys == xs + [None];
      assert (xs + [None])[..|xs|] == xs;
      assert xs + ys == xs;
    } else {
      var ys' := ys[..|ys| - 1];
      AccumulateSkipsNone(xs, ys');
      assert (xs + [None] + ys)[..|xs + [None] + ys| - 1] == xs + [None] + ys';
      assert (xs + ys)[..|xs + ys| - 1] == xs + ys';
    }
  }

  /** A manifest without an appid match (or unreadable, or ignored) contributes
      nothing, wherever it stands in the glob order. */
  lemma IndexSkipsNoEntry(xs: seq<ManifestFile>, f: ManifestFile, ys: seq<ManifestFile>)
    requires ManifestEntry(f).None?
    ensures IndexManifests(xs + [f] + ys) == IndexManifests(xs + ys)
  {
    EntriesAppend(xs + [f], ys);
    EntriesAppend(xs, [f]);
    EntriesAppend(xs, ys);
    assert Entries([f]) == [None];
    AccumulateSkipsNone(Entries(xs), Entries(ys));
  }

  lemma EntriesAppend(xs: seq<ManifestFile>, ys: seq<ManifestFile>)
    ensures Entries(xs + ys) == Entries(xs) + Entries(ys)
  {
    var l, r := Entries(xs + ys), Entries(xs) + Entries(ys);
    forall k | 0 <= k < |l| ensures l[k] == r[k] {
      if k < |xs| {
        assert (xs + ys)[k] == xs[k];
      } else {
        assert (xs + ys)[k] == ys[k - |xs|];
      }
    }
  }

  /** Extraction from one manifest, stated against the regular-expression
      semantics: the appid is the group of the leftmost `"appid"` match and the
      name the group of the leftmost `"name"` match, or the placeholder. */
  lemma ManifestEntryFromFirstMatch(content: string, i: int, lo: int, hi: int)
    requires IsFirstMatch(content, AppIdPattern, i, lo, hi)
    ensures content[lo..hi] in IgnoreAppIds ==> ManifestEntry(Read(content)).None?
    ensures content[lo..hi] !in IgnoreAppIds ==> ManifestEntry(Read(content)).Some?
    ensures content[lo..hi] !in IgnoreAppIds ==> ManifestEntry(Read(content)).value.appid == content[lo..hi]
    ensures forall ni, nlo, nhi ::
      IsFirstMatch(content, NamePattern, ni, nlo, nhi) && content[lo..hi] !in IgnoreAppIds ==>
        ManifestEntry(Read(content)).value.name == content[nlo..nhi]
    ensures (forall ni, nlo, nhi :: !MatchesAt(content, NamePattern, ni, nlo, nhi)) ==>
      content[lo..hi] !in IgnoreAppIds ==> ManifestEntry(Read(content)).value.name == Placeholder(content[lo..hi])
  {
    FirstGroupOfFirstMatch(content, AppIdPattern, i, lo, hi);
    forall ni, nlo, nhi | IsFirstMatch(content, NamePattern, ni, nlo, nhi) {
      FirstGroupOfFirstMatch(content, NamePattern, ni, nlo, nhi);
    }
    FirstGroupNone(content, NamePattern);
  }

  /** A manifest in which the `"appid"` pattern matches nowhere contributes nothing. */
  lemma ManifestEntryNoAppId(content: string)
    requires forall i, lo, hi :: !MatchesAt(content, AppIdPattern, i, lo, hi)
    ensures ManifestEntry(Read(content)).None?
  {
    FirstGroupNone(content, AppIdPattern);
  }
}
