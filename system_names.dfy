/** The player page picks an emulator system id for a console
    (src/pages/PlayerPage.jsx); the fallback player shows a name for a system id
    (src/lib/simple-game-player.js). This module relates the two. */
module SystemNaming {
  import opened Text
  import PlayerPage
  import SimpleGamePlayer

  /** Every system the player page can choose has a display name. */
  lemma PageSystemsHaveNames(console: string)
    ensures SimpleGamePlayer.SystemName(PlayerPage.SystemFor(console)) in SimpleGamePlayer.SystemNames.Values
  {
    var s := PlayerPage.SystemFor(console);
    if s == "gba" {
      assert Lower("gba") == "gba";
    } else if s == "nes" {
      assert Lower("nes") == "nes";
    } else if s == "nds" {
      assert Lower("nds") == "nds";
    } else {
      assert Lower("segaCD") == "segacd";
    }
  }
}
