/** The library page's list: the console or favourites tab selects games from
    the catalog, a title search narrows them and a stable sort orders them
    (src/pages/LibraryPage.jsx). */
module Library {
  import opened Wrappers
  import opened Text
  import opened Sequences
  import AssetPaths

  /** A catalog entry; `year` is optional because the sort treats a missing
      year as 0. `rom` is the ROM's path relative to the deployment base (see
      RomPath). */
  datatype Game = Game(id: int, title: string, console: string, year: Option<int>, rom: string)

  /** The `romPath` the catalog gives a game: its ROM path joined onto the base `env`. */
  function RomPath(env: Option<string>, g: Game): (p: string)
    ensures AssetPaths.BaseUrl(env) <= p
  {
    AssetPaths.AssetPath(env, g.rom)
  }

  /** The fixed catalog. */
  const AllGames: seq<Game> :=
    [ Game(1, "Pokemon FireRed", "GBA", Some(2004), "roms/pokemon_firered.gba"),
      Game(3, "Pokemon Ruby", "GBA", Some(2002), "roms/pokemon_ruby.gba"),
      Game(4, "Pokemon Sapphire", "GBA", Some(2002), "roms/pokemon_sapphire.gba"),
      Game(5, "Pokemon Emerald", "GBA", Some(2004), "roms/pokemon_emerald.gba"),
      Game(6, "Mario Kart: Super Circuit", "GBA", Some(2001), "roms/mariokart_supercircuit.gba"),
      Game(7, "Pac-Man (Namco)", "NES", Some(1984), "roms/pacman.nes"),
      Game(8, "Sonic 3D Blast", "SegaCD", Some(1996), "roms/sonic3dblast/Sonic 3D Blast (USA).cue"),
      Game(9, "Pokemon: Platinum Version", "NDS", Some(2008), "roms/pokemon_platinum.nds") ]

  /** Every catalog game belongs on one of the page's console tabs. */
  lemma CatalogOnConsoleTabs()
    ensures forall g :: g in AllGames ==> g.console in Consoles("ALL")[2..]
  {
    var tabs := Consoles("ALL")[2..];
    forall g | g in AllGames ensures g.console in tabs {
      assert g.console in {"GBA", "NES", "NDS", "SegaCD"};
    }
  }

  /** The catalog lists its games by increasing id, so no two share one. */
  lemma CatalogIdsDistinct()
    ensures forall i, j :: 0 <= i < j < |AllGames| ==> AllGames[i].id < AllGames[j].id
  {
  }

  /** The tabs shown: the favourites page shows only its own tab. */
  function Consoles(defaultFilter: string): (tabs: seq<string>)
    ensures "FAVORITES" in tabs
    ensures "ALL" in tabs <==> defaultFilter != "FAVORITES"
    ensures |tabs| == if defaultFilter == "FAVORITES" then 1 else 6
    ensures defaultFilter != "FAVORITES" ==> tabs[0] == "ALL" && tabs[2..] == ["GBA", "NES", "NDS", "SegaCD"]
  {
    if defaultFilter == "FAVORITES" then ["FAVORITES"] else ["ALL", "FAVORITES", "GBA", "NES", "NDS", "SegaCD"]
  }

  // ---------------------------------------------------------------- tab

  /** Whether a game belongs on the selected tab. */
  predicate OnTab(tab: string, favorites: seq<int>, g: Game) {
    if tab == "FAVORITES" then g.id in favorites
    else tab == "ALL" || g.console == tab
  }

  /** The tab's selection from the catalog. */
  function SelectTab(tab: string, favorites: seq<int>, games: seq<Game>): (r: seq<Game>)
    ensures forall g :: multiset(r)[g] == if OnTab(tab, favorites, g) then multiset(games)[g] else 0
    ensures tab == "ALL" ==> r == games
  {
    if tab == "FAVORITES" then
      var p := (g: Game) => g.id in favorites;
      KeepCounts(games, p);
      Keep(games, p)
    else if tab == "ALL" then games
    else
      var p := (g: Game) => g.console == tab;
      KeepCounts(games, p);
      Keep(games, p)
  }

  // ---------------------------------------------------------------- search

  /** Whether a game's title matches the search box: always, when the trimmed
      query is empty; otherwise when the lower-cased title contains the trimmed,
      lower-cased query. */
  predicate Matches(query: string, g: Game) {
    Trim(query) == [] || Contains(Lower(g.title), Lower(Trim(query)))
  }

  /** The title search. */
  function Search(query: string, games: seq<Game>): (r: seq<Game>)
    ensures forall g :: multiset(r)[g] == if Matches(query, g) then multiset(games)[g] else 0
    ensures Trim(query) == [] ==> r == games
  {
    if Trim(query) != [] then
      var q := Lower(Trim(query));
      var p := (g: Game) => Contains(Lower(g.title), q);
      KeepCounts(games, p);
      Keep(games, p)
    else games
  }

  /** An empty or whitespace-only query filters nothing. */
  lemma BlankQueryKeepsAll(query: string, games: seq<Game>)
    requires forall i :: 0 <= i < |query| ==> IsWhitespace(query[i])
    ensures Search(query, games) == games
  {
  }

  /** The search ignores the case of the query. */
  lemma SearchIgnoresQueryCase(query: string, games: seq<Game>)
    ensures Search(Lower(query), games) == Search(query, games)
  {
    TrimLower(query);
    LowerIdempotent(Trim(query));
    assert Trim(Lower(query)) == [] <==> Trim(query) == [];
  }

  // ---------------------------------------------------------------- sort

  /** `g.year ?? 0` */
  function Year(g: Game): int {
    if g.year.Some? then g.year.value else 0
  }

  /** The comparator handed to `sort`, by sort key; an unknown key compares
      every pair as equal. */
  function Cmp(sortBy: string, a: Game, b: Game): (c: int)
    ensures sortBy in {"title-asc", "title-desc"} ==> (c == 0 <==> a.title == b.title)
    ensures sortBy == "year-asc" ==> (c < 0 <==> Year(a) < Year(b)) && (c == 0 <==> Year(a) == Year(b))
    ensures sortBy == "year-desc" ==> (c < 0 <==> Year(a) > Year(b)) && (c == 0 <==> Year(a) == Year(b))
    ensures sortBy !in {"title-asc", "title-desc", "year-desc", "year-asc"} ==> c == 0
  {
    CompareZero(a.title, b.title);
    CompareZero(b.title, a.title);
    if sortBy == "title-asc" then Compare(a.title, b.title)
    else if sortBy == "title-desc" then Compare(b.title, a.title)
    else if sortBy == "year-desc" then Year(b) - Year(a)
    else if sortBy == "year-asc" then Year(a) - Year(b)
    else 0
  }

  lemma CmpAntisymmetric(sortBy: string, a: Game, b: Game)
    ensures Cmp(sortBy, a, b) == -Cmp(sortBy, b, a)
  {
    CompareAntisymmetric(a.title, b.title);
  }

  lemma CmpTransitive(sortBy: string, a: Game, b: Game, c: Game)
    requires Cmp(sortBy, a, b) <= 0 && Cmp(sortBy, b, c) <= 0
    ensures Cmp(sortBy, a, c) <= 0
  {
    if sortBy == "title-asc" {
      CompareTransitive(a.title, b.title, c.title);
    } else if sortBy == "title-desc" {
      CompareTransitive(c.title, b.title, a.title);
    }
  }

  /** No element is ordered after a later one. */
  ghost predicate SortedBy(sortBy: string, s: seq<Game>) {
    forall i, j :: 0 <= i < j < |s| ==> Cmp(sortBy, s[i], s[j]) <= 0
  }

  /** Places `x` before the first element it is not after. */
  function Insert(sortBy: string, x: Game, s: seq<Game>): (r: seq<Game>)
    ensures multiset(r) == multiset(s) + multiset{x}
  {
    if s == [] || Cmp(sortBy, x, s[0]) <= 0 then [x] + s
    else
      assert s == [s[0]] + s[1..];
      [s[0]] + Insert(sortBy, x, s[1..])
  }

  lemma {:induction false} InsertSorted(sortBy: string, x: Game, s: seq<Game>)
    requires SortedBy(sortBy, s)
    ensures SortedBy(sortBy, Insert(sortBy, x, s))
  {
    var r := Insert(sortBy, x, s);
    if s == [] {
    } else if Cmp(sortBy, x, s[0]) <= 0 {
      forall j | 1 <= j < |r| ensures Cmp(sortBy, x, r[j]) <= 0 {
        if j > 1 {
          CmpTransitive(sortBy, x, s[0], r[j]);
        }
      }
    } else {
      var t := Insert(sortBy, x, s[1..]);
      InsertSorted(sortBy, x, s[1..]);
      CmpAntisymmetric(sortBy, x, s[0]);
      forall j | 0 <= j < |t| ensures Cmp(sortBy, s[0], t[j]) <= 0 {
        assert t[j] in multiset(t);
        if t[j] != x {
          assert t[j] in multiset(s[1..]);
          var k :| 0 <= k < |s[1..]| && s[1..][k] == t[j];
          assert s[k + 1] == t[j];
        }
      }
    }
  }

  /** `[...games].sort(cmp)`: a stable sort on a fresh copy. */
  function SortBy(sortBy: string, s: seq<Game>): (r: seq<Game>)
    ensures multiset(r) == multiset(s)
    ensures SortedBy(sortBy, r)
  {
    if s == [] then []
    else
      var t := SortBy(sortBy, s[1..]);
      SortStep(sortBy, s, t);
      Insert(sortBy, s[0], t)
  }

  /** Inserting the head into the sorted tail sorts the whole list. */
  lemma SortStep(sortBy: string, s: seq<Game>, t: seq<Game>)
    requires s != [] && multiset(t) == multiset(s[1..]) && SortedBy(sortBy, t)
    ensures multiset(Insert(sortBy, s[0], t)) == multiset(s)
    ensures SortedBy(sortBy, Insert(sortBy, s[0], t))
  {
    InsertSorted(sortBy, s[0], t);
    assert s == [s[0]] + s[1..];
  }

  /** What the four known keys mean for the result. */
  lemma SortKeys(sortBy: string, s: seq<Game>)
    ensures var r := SortBy(sortBy, s);
      forall i, j :: 0 <= i < j < |r| ==>
        && (sortBy == "title-asc" ==> Compare(r[i].title, r[j].title) <= 0)
        && (sortBy == "title-desc" ==> Compare(r[j].title, r[i].title) <= 0)
        && (sortBy == "year-asc" ==> Year(r[i]) <= Year(r[j]))
        && (sortBy == "year-desc" ==> Year(r[i]) >= Year(r[j]))
  {
  }

  /** The games the comparator puts level with `z`. */
  function LevelWith(sortBy: string, z: Game): Game -> bool {
    (g: Game) => Cmp(sortBy, g, z) == 0
  }

  lemma {:induction false} KeepLevelInsert(sortBy: string, z: Game, x: Game, t: seq<Game>)
    ensures Keep(Insert(sortBy, x, t), LevelWith(sortBy, z))
         == (if LevelWith(sortBy, z)(x) then [x] else []) + Keep(t, LevelWith(sortBy, z))
  {
    if t == [] || Cmp(sortBy, x, t[0]) <= 0 {
      assert ([x] + t)[1..] == t;
    } else {
      KeepLevelInsert(sortBy, z, x, t[1..]);
      LevelNotPast(sortBy, z, x, t[0]);
      assert Insert(sortBy, x, t) == [t[0]] + Insert(sortBy, x, t[1..]);
      assert [t[0]] + t[1..] == t;
      KeepPast(x, t[0], Insert(sortBy, x, t[1..]), t[1..], LevelWith(sortBy, z));
    }
  }

  /** Two games in strict order are not both level with a third. */
  lemma LevelNotPast(sortBy: string, z: Game, x: Game, y: Game)
    requires Cmp(sortBy, x, y) > 0
    ensures !(LevelWith(sortBy, z)(x) && LevelWith(sortBy, z)(y))
  {
    if Cmp(sortBy, x, z) == 0 && Cmp(sortBy, y, z) == 0 {
      CmpAntisymmetric(sortBy, y, z);
      CmpTransitive(sortBy, x, z, y);
      assert false;
    }
  }

  /** Stability: among games the comparator puts level with each other, the
      sorted list keeps the input order. */
  lemma {:induction false} SortStable(sortBy: string, s: seq<Game>, z: Game)
    ensures Keep(SortBy(sortBy, s), LevelWith(sortBy, z)) == Keep(s, LevelWith(sortBy, z))
  {
    if s != [] {
      SortStable(sortBy, s[1..], z);
      KeepLevelInsert(sortBy, z, s[0], SortBy(sortBy, s[1..]));
    }
  }

  /** An unrecognised sort key leaves the order as it was. */
  lemma {:induction false} UnknownKeyKeepsOrder(sortBy: string, s: seq<Game>)
    requires sortBy !in {"title-asc", "title-desc", "year-desc", "year-asc"}
    ensures SortBy(sortBy, s) == s
  {
    if s != [] {
      UnknownKeyKeepsOrder(sortBy, s[1..]);
    }
  }

  // ---------------------------------------------------------------- pipeline

  /** The displayed list: tab, then search, then sort. */
  function Filtered(tab: string, favorites: seq<int>, query: string, sortBy: string, games: seq<Game>): (r: seq<Game>)
    ensures forall g :: multiset(r)[g] == (if OnTab(tab, favorites, g) && Matches(query, g) then multiset(games)[g] else 0)
    ensures SortedBy(sortBy, r)
  {
    SortBy(sortBy, Search(query, SelectTab(tab, favorites, games)))
  }

  /** A game is listed exactly when it is in the catalog, on the tab and matches
      the search. */
  lemma FilteredMembers(tab: string, favorites: seq<int>, query: string, sortBy: string, games: seq<Game>, g: Game)
    ensures g in Filtered(tab, favorites, query, sortBy, games)
        <==> g in games && OnTab(tab, favorites, g) && Matches(query, g)
  {
    var r := Filtered(tab, favorites, query, sortBy, games);
    assert g in r <==> multiset(r)[g] > 0;
    assert g in games <==> multiset(games)[g] > 0;
  }

  /** With an unrecognised sort key, the list is in catalog order. */
  lemma FilteredUnknownKey(tab: string, favorites: seq<int>, query: string, sortBy: string, games: seq<Game>)
    requires sortBy !in {"title-asc", "title-desc", "year-desc", "year-asc"}
    ensures Filtered(tab, favorites, query, sortBy, games) == Search(query, SelectTab(tab, favorites, games))
  {
    UnknownKeyKeepsOrder(sortBy, Search(query, SelectTab(tab, favorites, games)));
  }
}
