/** The player page's own logic (src/pages/PlayerPage.jsx): the per-title
    details table, the console to emulator-system mapping and what the page
    does when it is opened without a game. The play-time clock is in PlayTime. */
module PlayerPage {
  import opened Wrappers
  import Library
  import AssetPaths

  // ---------------------------------------------------------------- details

  datatype Details = Details(description: string, region: string, genre: string, developer: string, publisher: string)

  /** The record for a title the table does not list. */
  const UnknownGame := Details(
    "Experience a classic gaming adventure in your browser. Challenge yourself with this retro masterpiece!",
    "Unknown Region", "Classic Game", "Unknown", "Unknown")

  const DetailsTable: map<string, Details> := map[
    "Pokemon FireRed" := Details(
      "Return to the Kanto region where your Pokémon journey began! As a young trainer from Pallet Town, choose between Bulbasaur, Charmander, or Squirtle and embark on an epic adventure. Battle the nefarious Team Rocket, collect eight Gym Badges, and challenge the Elite Four. This enhanced remake features updated graphics, new areas like the Sevii Islands, and compatibility with Ruby and Sapphire for trading.",
      "Kanto Region", "RPG / Adventure", "Game Freak", "Nintendo / The Pokémon Company"),
    "Pokemon Ruby" := Details(
      "Explore the tropical Hoenn region in this groundbreaking adventure! As a new trainer, you'll face off against the dangerous Team Magma, who seek to expand the landmass by awakening the legendary Groudon. Discover over 135 new Pokémon species, participate in thrilling Pokémon Contests, build your Secret Base, and master the new Double Battle system. The journey to become Hoenn Champion begins here!",
      "Hoenn Region", "RPG / Adventure", "Game Freak", "Nintendo / The Pokémon Company"),
    "Pokemon Sapphire" := Details(
      "Dive into the oceanic adventure of the Hoenn region! Counter the sinister plans of Team Aqua as they attempt to expand the seas by awakening the legendary Kyogre. Experience a unique story parallel to Ruby, discover exclusive Pokémon, and explore underwater routes with Dive. Build Secret Bases, compete in Contests, and challenge powerful Gym Leaders on your quest to become the Champion of Hoenn!",
      "Hoenn Region", "RPG / Adventure", "Game Freak", "Nintendo / The Pokémon Company"),
    "Pokemon Emerald" := Details(
      "The definitive Hoenn experience! Face both Team Magma and Team Aqua as they awaken the legendary Groudon and Kyogre, threatening to tear the region apart. Only with the help of Rayquaza can balance be restored. This enhanced version features the Battle Frontier with seven unique challenge facilities, animated Pokémon sprites, expanded post-game content, and the ability to catch both legendary mascots. The ultimate Hoenn adventure awaits!",
      "Hoenn Region", "RPG / Adventure", "Game Freak", "Nintendo / The Pokémon Company"),
    "Mario Kart: Super Circuit" := Details(
      "Experience high-speed kart racing action on the Game Boy Advance! Race as Mario, Luigi, Princess Peach, and other beloved Nintendo characters across 40 exciting tracks - 20 brand new circuits plus all 20 classic tracks from Super Mario Kart. Master power-sliding techniques, collect coins to boost your speed, and unleash devastating items like shells, bananas, and lightning bolts. Compete in Grand Prix cups, beat Time Trial records, and challenge friends via link cable in this portable racing masterpiece!",
      "Mushroom Kingdom", "Racing / Arcade", "Intelligent Systems", "Nintendo"),
    "Pac-Man (Namco)" := Details(
      "Navigate the iconic yellow hero through maze-like stages, gobbling pellets while avoiding the relentless ghosts Blinky, Pinky, Inky, and Clyde. Snag Power Pellets to turn the tables and chomp the ghosts for big points, grab bonus fruits, and clear each board as the pace ramps up. A timeless arcade classic that defined an era.",
      "Arcade Maze", "Maze / Arcade", "Namco", "Namco"),
    "Sonic 3D Blast" := Details(
      "Experience Sonic in a whole new dimension! Guide the blue blur through isometric 3D environments as you rescue Flickies from Dr. Robotnik's clutches. Collect Chaos Emeralds, battle robotic enemies, and explore vibrant zones filled with secrets. This unique perspective on the Sonic franchise combines classic speed with puzzle-solving elements for an unforgettable adventure on the Sega CD.",
      "Green Grove Zone", "Platformer / Action", "Traveller's Tales", "Sega"),
    "Pokemon: Platinum Version" := Details(
      "Return to the Sinnoh region in this enhanced third version! Confront Team Galactic's plot to control the Legendary Pokémon Dialga and Palkia while the mysterious Distortion World emerges, ruled by Giratina. Expanded Pokédex, new story elements, refined Battle Frontier-style challenges, and improved regional encounters make this the definitive Sinnoh adventure.",
      "Sinnoh Region", "RPG / Adventure", "Game Freak", "Nintendo / The Pokémon Company")
  ]

  /** `getGameDetails(title)`: the table's record, or the unknown-game record.
      Only an unlisted title gets the region "Unknown Region". */
  function GameDetails(title: string): (d: Details)
    ensures title in DetailsTable ==> d == DetailsTable[title]
    ensures d.region == "Unknown Region" <==> title !in DetailsTable
    ensures title !in DetailsTable ==> d == UnknownGame
  {
    if title in DetailsTable then DetailsTable[title] else UnknownGame
  }

  /** Every catalog title has its own record. */
  lemma CatalogTitlesHaveDetails(g: Library.Game)
    requires g in Library.AllGames
    ensures g.title in DetailsTable
    ensures GameDetails(g.title).region != "Unknown Region"
  {
    var gs := Library.AllGames;
    var i :| 0 <= i < |gs| && gs[i] == g;
    assert gs[i].title in DetailsTable by {
      if i == 0 { assert gs[0].title == "Pokemon FireRed"; }
      else if i == 1 { assert gs[1].title == "Pokemon Ruby"; }
      else if i == 2 { assert gs[2].title == "Pokemon Sapphire"; }
      else if i == 3 { assert gs[3].title == "Pokemon Emerald"; }
      else if i == 4 { assert gs[4].title == "Mario Kart: Super Circuit"; }
      else if i == 5 { assert gs[5].title == "Pac-Man (Namco)"; }
      else if i == 6 { assert gs[6].title == "Sonic 3D Blast"; }
      else { assert gs[7].title == "Pokemon: Platinum Version"; }
    }
  }

  // ---------------------------------------------------------------- system

  /** The emulator system name for a console: NES, SegaCD and NDS have their
      own; every other console, GBA included, falls back to "gba". */
  function SystemFor(console: string): (system: string)
    ensures system in {"gba", "nes", "segaCD", "nds"}
    ensures console == "NES" <==> system == "nes"
    ensures console == "SegaCD" <==> system == "segaCD"
    ensures console == "NDS" <==> system == "nds"
  {
    var system := "gba";
    var system := if console == "NES" then "nes" else system;
    var system := if console == "SegaCD" then "segaCD" else system;
    if console == "NDS" then "nds" else system
  }

  // ---------------------------------------------------------------- no game

  /** The game object the page is given, as far as the page reads it. Callers
      build it themselves, so its ROM path may be missing. */
  datatype PageGame = PageGame(id: int, title: string, console: string, romPath: Option<string>)

  /** The placeholder shown when the page is opened without a game. */
  const NoGame := PageGame(0, "SELECT A GAME", "N/A", None)

  /** `game || placeholder`: a given game is used as it is. */
  function CurrentGame(game: Option<PageGame>): (g: PageGame)
    ensures game.Some? ==> g == game.value
    ensures game.None? ==> g.title == "SELECT A GAME" && g.console == "N/A" && g.romPath.None?
  {
    match game
    case Some(x) => x
    case None => NoGame
  }

  /** The object the library page hands over for a catalog game. */
  function CatalogPageGame(env: Option<string>, x: Library.Game): (g: PageGame)
    ensures g.id == x.id && g.title == x.title && g.console == x.console
    ensures g.romPath == Some(Library.RomPath(env, x))
  {
    PageGame(x.id, x.title, x.console, Some(Library.RomPath(env, x)))
  }

  /** What the page's mount effect starts: a ROM fetch and the play-time timer,
      and whether the loading indicator is cleared at once. */
  datatype MountEffect = MountEffect(fetchesRom: bool, startsTimer: bool, clearsLoading: bool)

  /** `if (currentGame.romPath)`: a missing path and the empty string are both falsy. */
  function OnMount(g: PageGame): (e: MountEffect)
    ensures e.fetchesRom == e.startsTimer == (g.romPath.Some? && g.romPath.value != [])
    ensures e.clearsLoading <==> !e.fetchesRom
  {
    match g.romPath
    case Some(p) => if p != [] then MountEffect(true, true, false) else MountEffect(false, false, true)
    case None => MountEffect(false, false, true)
  }

  /** Opened without a game, the page shows the placeholder with the unknown-game
      details, fetches nothing, starts no timer and stops loading. */
  lemma NoGameNoLoad()
    ensures var g := CurrentGame(None);
      && GameDetails(g.title) == UnknownGame
      && OnMount(g) == MountEffect(false, false, true)
  {
  }

  /** A catalog game opened from the library is fetched from under the
      deployment base, and the timer starts. */
  lemma CatalogGameLoads(env: Option<string>, x: Library.Game)
    ensures var g := CurrentGame(Some(CatalogPageGame(env, x)));
      && g.romPath.Some? && AssetPaths.BaseUrl(env) <= g.romPath.value
      && OnMount(g) == MountEffect(true, true, false)
  {
  }

  /** A game handed over without a ROM path (a stored object that lacks one, or
      has an empty one) is not fetched, and loading stops at once. */
  lemma NoRomPathNoFetch(x: PageGame)
    requires x.romPath.None? || x.romPath == Some([])
    ensures OnMount(CurrentGame(Some(x))) == MountEffect(false, false, true)
  {
  }
}
