# PrefixHQ inventory core in Dafny

PrefixHQ lists the Proton prefixes under Steam's `steamapps/compatdata` directory
whose game is no longer installed ("orphaned prefixes"), names them, and lets the
user rename them. This project models the decision logic beneath its Qt window:

- **Manifest indexing** (`get_installed_games`): each `*.acf` manifest is searched
  for `"appid"\s+"(\d+)"` and `"name"\s+"([^"]+)"`. Ignored runtime appids are
  dropped, and a missing name becomes `(AppID <id>)`. The entries are then
  accumulated into an appid -> name map, where the last writer wins. The two
  regular expressions are hand-written scanners (`Patterns`). A declarative
  `MatchesAt` predicate says what a match is, and lemmas prove that the scanner
  returns the group of the leftmost match, as `re.search` does.
- **Store lookup fallback** (`get_game_name`): the HTTP reply is a parameter
  (`StoreReply`). Every failure gives the placeholder. When the store answers
  without a name, the placeholder is built from `str(int(appid))`, so leading
  zeros are dropped there but not on the failure path.
- **Orphan table** (`populate_table`): an entry of compatdata becomes a row iff it
  is a directory, its name is all digits, and it is neither in the latest scan
  nor ignored. The row shows the custom name if there is one, else the lookup
  result. The count logged is the number of rows.
- **Local database** (`load_local_db`, `__init__`, `refresh`): the default is two
  empty maps. Each scan is merged into `installed_games` with `dict.update`.
- **Rename** (`rename_game`): with exactly one row selected and an accepted,
  non-blank input, the stripped input is stored in `custom_names` and shown.

`MainWindow` is a class whose fields are the database, the latest scan and the
table rows. Its methods change them in place. `Valid()` says that the latest
scan holds only real appids and is stored in the database, and that every row is
an orphan of that scan.

`PrefixHQ.py` works on one Steam library, `~/.local/share/Steam/steamapps`, and
its `compatdata` directory. It reads no shortcut file and keeps no status
overrides or name cache. It lists the orphans in directory order, without
sorting.

Files: `wrappers.dfy` (Option), `text.dfy` (whitespace, digits, strip),
`patterns.dfy` (the two regular expressions), `manifests.dfy` (manifest indexing),
`store.dfy` (name lookup), `window.dfy` (orphan rows, database, `MainWindow`).

## Model

| member | source | states |
|---|---|---|
| Text.Strip | PrefixHQ.py:222 | `str.strip()`: the result is empty iff the input is all whitespace, otherwise it starts and ends with non-whitespace |
| Text.StripPadding | PrefixHQ.py:222 | strip removes exactly the whitespace padding around a text with non-whitespace ends (a complete characterisation) |
| Text.StripIdempotent | PrefixHQ.py:222-225 | stripping an already stripped name changes nothing |
| Patterns.MatchesAt | PrefixHQ.py:47-52 | defines what a match of either pattern at a position is: the quoted key, one or more whitespace characters, a quote, a non-empty group of `\d` or `[^"]` characters, a quote; the reference meaning the scanner is proved against |
| Patterns.MatchAt | PrefixHQ.py:47 | the scanner at one position returns a group iff the pattern matches there, and returns that match's group |
| Patterns.Search | PrefixHQ.py:47 | the scanner returns a match at or after the start with no match before it, or reports that there is none |
| Patterns.FirstGroup | PrefixHQ.py:52 | a captured group is non-empty and made of digits (appid) or of non-quote characters (name) |
| Patterns.MatchDeterminedByStart | PrefixHQ.py:47-52 | a match position fixes the group, since whitespace and group both stop at a quote (no backtracking ambiguity) |
| Patterns.FirstGroupOfFirstMatch | PrefixHQ.py:47-52 | completeness: if a leftmost match exists, the scanner returns exactly its group |
| Patterns.FirstGroupIsFirstMatch | PrefixHQ.py:47-52 | soundness: whatever the scanner returns is the group of a leftmost match |
| Patterns.FirstGroupNone | PrefixHQ.py:48 | the scanner finds nothing iff the pattern matches at no position |
| Manifests.IgnoredNeverIndexed | PrefixHQ.py:37-39 | no appid of `IGNORE_APPIDS` (`Manifests.IgnoreAppIds`, the five runtime ids) is ever a key of the installed-games map |
| Manifests.Placeholder | PrefixHQ.py:53 | the placeholder is `(AppID ` + appid + `)` |
| Manifests.ManifestEntry | PrefixHQ.py:47-54 | a manifest contributes only an all-digit, non-ignored appid, with a non-empty name |
| Manifests.ManifestEntryFromFirstMatch | PrefixHQ.py:47-53 | the appid is the group of the leftmost appid match, and an ignored one contributes nothing; the name is the leftmost name match's group, else the placeholder |
| Manifests.ManifestEntryNoAppId | PrefixHQ.py:47-48 | a manifest where the appid pattern matches nowhere contributes nothing |
| Manifests.GetInstalledGames | PrefixHQ.py:41-57 | the loop builds the index of all manifests in glob order; every key is an all-digit, non-ignored appid |
| Manifests.IndexKeys | PrefixHQ.py:47-54 | an appid is a key iff some manifest contributes it; no ignored appid is ever a key |
| Manifests.AccumulateKeys | PrefixHQ.py:54 | the keys of the accumulated dictionary are exactly the appids of the entries |
| Manifests.Accumulate | PrefixHQ.py:42-54 | defines the dictionary that starts empty and gets `games[appid] = name` for each contributing manifest in turn |
| Manifests.AccumulateLastWins | PrefixHQ.py:54 | an appid is stored with the name of the last entry that carries it |
| Manifests.IndexLastWins | PrefixHQ.py:43-54 | when two manifests share an appid, the one globbed later determines the stored name |
| Manifests.AccumulateSkipsNone | PrefixHQ.py:48-51 | an entry-less position changes nothing, wherever it stands |
| Manifests.EntriesAppend | PrefixHQ.py:43 | extraction is per file, so concatenating file lists concatenates their entries |
| Manifests.IndexSkipsNoEntry | PrefixHQ.py:48-51 | a manifest with no appid match (or an ignored or unreadable one) can be removed without changing the map |
| Store.Canonical | PrefixHQ.py:61 | `str(int(s))`: the same number, still all digits, with no leading zero unless it is `0` |
| Store.GetGameName | PrefixHQ.py:59-69 | a failed or unsuccessful lookup, or a non-numeric appid, gives `(AppID <appid>)`; a reply with a name gives that name; a reply without one gives the placeholder of the canonical number |
| PrefixHQ.LoadLocalDb | PrefixHQ.py:26-30 | without a saved file the database has empty `installed_games` and `custom_names`; otherwise it is the saved one |
| PrefixHQ.Update | PrefixHQ.py:118 | `dict.update`: the keys are the union, the scan's names win, and every other old entry is kept |
| PrefixHQ.UpdateIdempotent | PrefixHQ.py:155-158 | merging the same scan twice is merging it once |
| PrefixHQ.IsOrphan | PrefixHQ.py:138-144 | defines the filter: a directory, an all-digit name, not in the latest scan, not ignored |
| PrefixHQ.DisplayName | PrefixHQ.py:146 | defines a row's name: `custom_names[appid]` if set, else the lookup result; the lookup is evaluated either way and its result discarded when a custom name exists |
| PrefixHQ.OrphanRows | PrefixHQ.py:137-151 | at most one row per entry; every row's appid is all digits, not installed and not ignored |
| PrefixHQ.TableRows | PrefixHQ.py:132-135 | defines the table after a fill: empty when compatdata is missing, the orphan rows otherwise |
| PrefixHQ.RowFromOrphan | PrefixHQ.py:137-148 | every row's appid is the name of a directory entry that is all digits, not installed and not ignored |
| PrefixHQ.OrphanHasRow | PrefixHQ.py:137-151 | every such entry gets a row with its name |
| PrefixHQ.OrphanRowsIff | PrefixHQ.py:137-144 | an appid has a row iff some entry with that name is a directory, all digits, not installed and not ignored |
| PrefixHQ.OrphanRowsNamed | PrefixHQ.py:66-69 | a row shows `custom_names[appid]` when set, else the lookup result, which is `(AppID <appid>)` when the lookup failed |
| PrefixHQ.OrphanRowsDistinct | PrefixHQ.py:137-151 | entries of one directory have distinct names, so no appid gets two rows |
| PrefixHQ.AcceptedName | PrefixHQ.py:221-222 | a name is accepted iff the dialog was confirmed and the input has a non-whitespace character; it is then the stripped input |
| PrefixHQ.MainWindow.constructor | PrefixHQ.py:115-121 | the database is loaded, the scan is the manifest index and is merged into `installed_games`, custom names are kept, and the table holds the orphan rows |
| PrefixHQ.MainWindow.PopulateTable | PrefixHQ.py:131-153 | the table holds exactly the orphan rows in directory order (empty if compatdata is missing), and the reported count equals the number of rows |
| PrefixHQ.MainWindow.Refresh | PrefixHQ.py:155-160 | the scan is replaced, merged into `installed_games` (old entries kept, new ones winning), custom names are unchanged, and the table is refilled |
| PrefixHQ.MainWindow.RenameGame | PrefixHQ.py:213-226 | state changes iff exactly one row is selected and the name is accepted; then only `custom_names[appid]` and that row's name change, to the stripped input |

## Left out

- The HTTP request, its timeout and JSON decoding (PrefixHQ.py:59-69) are network I/O. The reply is a `StoreReply` given per appid. A `name` that is not a string is not modelled.
- File access is not modelled: creating the config directory, globbing manifests, reading them with undecodable bytes ignored, and loading and saving `games.json`. Manifests are given as already-read text (or as unreadable), compatdata as a list of entries with an is-directory flag, and the saved database as a value. A saved file without `installed_games` or `custom_names` would make the source raise; the model assumes both keys are present.
- Python's `\d` and `str.isdigit()` also accept non-ASCII digits; the model accepts only `0`-`9`.
- Store.GetGameName: `int()` also accepts signs, surrounding whitespace and underscores; the model treats any non-digit appid as a failed conversion. Only all-digit directory names reach the lookup.
- The Qt window is not modelled: widgets, the log pane, `show_initial_state`'s listing of installed games (log output only), message boxes and the input dialog. The dialog's result is given as parameters.
- `delete_selected` (`shutil.rmtree`) and `open_selected` (`xdg-open`) are destructive or process-launching side effects and are not modelled.
- PrefixHQ.MainWindow.RenameGame: requires the selected row indices to be rows of the table, which Qt's selection model guarantees.
- Only the two fixed regular expressions are modelled, not a general regex engine.
