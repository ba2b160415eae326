/** The fallback player (src/lib/simple-game-player.js): naming a ROM from its
    file name, naming a system, and the two DOM changes it makes — showing an
    information panel in place of the canvas, and taking it away again. */
module SimpleGamePlayer {
  import opened Text
  import opened Dom
  import opened Sequences

  // ---------------------------------------------------------------- titles

  /** The ROM extensions `/\.(gba|nes|nds|cue)$/` recognises. */
  predicate IsRomExtension(e: string) {
    e == ".gba" || e == ".nes" || e == ".nds" || e == ".cue"
  }

  /** The name ends with a recognised extension, in exactly that case. */
  predicate HasRomExtension(s: string) {
    |s| >= 4 && IsRomExtension(s[|s| - 4..])
  }

  /** `s.replace(/\.(gba|nes|nds|cue)$/, '')`: the regex is anchored at the end and
      has no `g` flag, so at most one extension, the last, is removed. */
  function StripRomExtension(s: string): (r: string)
    ensures r <= s
    ensures HasRomExtension(s) ==> |r| == |s| - 4
    ensures !HasRomExtension(s) ==> r == s
  {
    if HasRomExtension(s) then s[..|s| - 4] else s
  }

  /** `s.replace(/_/g, ' ')`: every underscore becomes a space, nothing else moves. */
  function ReplaceUnderscores(s: string): (r: string)
    ensures |r| == |s|
    ensures forall i :: 0 <= i < |s| ==> r[i] == (if s[i] == '_' then ' ' else s[i])
    ensures '_' !in r
  {
    seq(|s|, i requires 0 <= i < |s| => if s[i] == '_' then ' ' else s[i])
  }

  /** The known ROMs, by lower-cased base name. */
  const TitleTable: map<string, string> := map[
    "pokemon_firered" := "Pokémon FireRed Version",
    "pokemon_emerald" := "Pokémon Emerald Version",
    "pokemon_ruby" := "Pokémon Ruby Version",
    "pokemon_sapphire" := "Pokémon Sapphire Version",
    "mariokart_supercircuit" := "Mario Kart: Super Circuit",
    "pacman" := "Pac-Man",
    "sonic3dblast" := "Sonic 3D Blast"
  ]

  /** The table key of a file name: lower-cased first, so any case of the
      extension is removed. */
  function TitleKey(filename: string): string {
    StripRomExtension(Lower(filename))
  }

  /** `getGameTitle(filename)`: the table's title for a known ROM; otherwise the
      file name itself, its extension removed only when written in lower case,
      with underscores shown as spaces. */
  function GameTitle(filename: string): (title: string)
    ensures TitleKey(filename) in TitleTable ==> title == TitleTable[TitleKey(filename)]
    ensures TitleKey(filename) !in TitleTable ==>
      && '_' !in title
      && |title| == |filename| - (if HasRomExtension(filename) then 4 else 0)
      && (forall i :: 0 <= i < |title| && filename[i] != '_' ==> title[i] == filename[i])
      && (forall i :: 0 <= i < |title| && filename[i] == '_' ==> title[i] == ' ')
  {
    var key := TitleKey(filename);
    if key in TitleTable then TitleTable[key]
    else ReplaceUnderscores(StripRomExtension(filename))
  }

  /** Only an extension at the very end goes, and only one of them. */
  lemma ExtensionStrippedOnce()
    ensures GameTitle("a.gba.gba") == "a.gba"
  {
    assert Lower("a.gba.gba") == "a.gba.gba";
    assert "a.gba.gba"[..5] == "a.gba";
  }

  /** The key is built from the lower-cased name, so an upper-case file name of a
      known ROM still finds its title. */
  lemma KnownRomInAnyCase()
    ensures GameTitle("PACMAN.GBA") == "Pac-Man"
  {
    assert Lower("PACMAN.GBA") == "pacman.gba";
    assert "pacman.gba"[..6] == "pacman";
  }

  lemma LowerMyHack()
    ensures Lower("My_Hack.GBA") == "my_hack.gba"
  {
  }

  /** "My_Hack.GBA" is not a known ROM. */
  lemma MyHackUnknown()
    ensures TitleKey("My_Hack.GBA") == "my_hack" && "my_hack" !in TitleTable
  {
    LowerMyHack();
    assert "my_hack.gba"[7..] == ".gba";
  }

  /** The fallback strips the extension case-sensitively: ".GBA" stays. */
  lemma FallbackKeepsUpperCaseExtension()
    ensures GameTitle("My_Hack.GBA") == "My Hack.GBA"
  {
    var f := "My_Hack.GBA";
    MyHackUnknown();
    assert !HasRomExtension(f) by {
      assert f[|f| - 4..] == ".GBA";
    }
    SpacedMyHack();
  }

  lemma SpacedMyHack()
    ensures ReplaceUnderscores("My_Hack.GBA") == "My Hack.GBA"
  {
  }

  /** Two file names that differ only in (ASCII) case find the same table entry. */
  lemma TitleKeyIgnoresCase(f: string, g: string)
    requires Lower(f) == Lower(g)
    ensures TitleKey(f) == TitleKey(g)
    ensures TitleKey(f) in TitleTable ==> GameTitle(f) == GameTitle(g)
  {
  }

  // ---------------------------------------------------------------- systems

  /** The display names, by lower-cased system id. */
  const SystemNames: map<string, string> := map[
    "gba" := "Game Boy Advance",
    "nes" := "Nintendo Entertainment System",
    "nds" := "Nintendo DS",
    "segacd" := "Sega CD"
  ]

  /** `getSystemName(system)`: the display name of a known system in any case;
      any other string comes back unchanged. */
  function SystemName(system: string): (name: string)
    ensures Lower(system) in SystemNames ==> name == SystemNames[Lower(system)]
    ensures Lower(system) !in SystemNames ==> name == system
  {
    var key := Lower(system);
    if key in SystemNames then SystemNames[key] else system
  }

  /** The lookup ignores case: "segaCD", the id the player page uses, is known. */
  lemma SegaCdName()
    ensures SystemName("segaCD") == "Sega CD"
    ensures SystemName("SEGACD") == "Sega CD"
  {
    assert Lower("segaCD") == "segacd";
    assert Lower("SEGACD") == "segacd";
  }

  // ---------------------------------------------------------------- the player

  /** The `id` of the information panel. */
  const DisplayId := "simple-game-display"

  class SimpleGamePlayer {
    /** The page the canvas lives in. */
    const win: Window
    const system: string

    /** `new SimpleGamePlayer(canvas, system)` */
    constructor (win: Window, system: string)
      ensures this.win == win && this.system == system
    {
      this.win := win;
      this.system := system;
    }

    /** `createGameDisplay`: hides the canvas and, when the canvas has a parent,
        appends one panel (holding the information box) to it. Returns the title
        shown on the panel. */
    method CreateGameDisplay(filename: string) returns (title: string)
      requires win.Valid()
      modifies win`canvasShown, win`nextUid, win`nodes
      ensures win.Valid()
      ensures title == GameTitle(filename)
      ensures !win.canvasShown
      ensures win.canvasHasParent ==> win.nodes == old(win.nodes) + [Node(old(win.nextUid), DisplayId, 1)]
      ensures !win.canvasHasParent ==> win.nodes == old(win.nodes)
    {
      win.canvasShown := false;
      var display := win.CreateElement();
      var info := win.CreateElement();
      title := GameTitle(filename);
      if win.canvasHasParent {
        win.AppendChild(Node(display, DisplayId, 1));
      }
    }

    /** `loadROM(romData, filename)`: shows the panel and resolves. */
    method LoadRom(filename: string) returns (title: string)
      requires win.Valid()
      modifies win`canvasShown, win`nextUid, win`nodes
      ensures win.Valid()
      ensures title == GameTitle(filename)
      ensures !win.canvasShown
      ensures win.canvasHasParent ==> win.nodes == old(win.nodes) + [Node(old(win.nextUid), DisplayId, 1)]
      ensures !win.canvasHasParent ==> win.nodes == old(win.nodes)
    {
      title := CreateGameDisplay(filename);
    }

    /** `cleanup()`: removes every panel and shows the canvas. A second call finds
        nothing to do. */
    method Cleanup()
      requires win.Valid()
      modifies win`nodes, win`canvasShown
      ensures win.Valid()
      ensures win.nodes == Without(old(win.nodes), DisplayId)
      ensures forall n :: n in win.nodes ==> n.id != DisplayId
      ensures win.canvasShown
      ensures (forall n :: n in old(win.nodes) ==> n.id != DisplayId) ==> win.nodes == old(win.nodes)
    {
      win.RemoveAll(DisplayId);
      WithoutMembers(old(win.nodes), DisplayId);
      win.canvasShown := true;
      if forall k :: 0 <= k < |old(win.nodes)| ==> old(win.nodes)[k].id != DisplayId {
        WithoutAbsent(old(win.nodes), DisplayId);
      }
    }
  }

  /** Panels appended after a cleanup are all taken by the next cleanup, whatever
      else the container holds. */
  lemma CleanupAfterDisplays(nodes: seq<Node>, shown: seq<Node>)
    requires forall n :: n in shown ==> n.id == DisplayId
    ensures Without(nodes + shown, DisplayId) == Without(nodes, DisplayId)
  {
    var p := (n: Node) => n.id != DisplayId;
    KeepConcat(nodes, shown, p);
    KeepNone(shown, p);
  }
}
