# RetroPlayHUB core, modelled in Dafny

RetroPlayHUB is a React front end for playing retro console ROMs in the
browser. Emulation itself is done by a third-party runtime, EmulatorJS. This
project models the logic the front end does itself, and proves properties
of that model:

- **Asset paths** (`src/lib/utils.js`). A path is joined onto the deployment
  base, which defaults to `/`, after at most one leading slash is dropped.
- **The library page** (`src/pages/LibraryPage.jsx`). The catalog goes
  through a console or favourites tab, then a trimmed, case-insensitive title
  search, then a stable sort on title or year. The page also has its list of
  tabs.
- **The player page** (`src/pages/PlayerPage.jsx`):
  - the `HH:MM:SS` play-time clock;
  - the title → details lookup with its default record;
  - the console → emulator-system mapping;
  - what the page does when it is opened without a game.
- **The fallback player** (`src/lib/simple-game-player.js`):
  - naming a ROM from its file name;
  - naming a system;
  - showing its information panel in place of the canvas, and removing it.
- **The EmulatorJS wrapper** (`src/lib/gba-emulator.js`):
  - loading the runtime's stylesheet and script once per page, with retry
    after a failed load;
  - mounting a runtime in a `#game` element;
  - forwarding pause and reset to the runtime;
  - tearing it all down.

The model is a set of modules, one file each:

| file | module | what it holds |
|---|---|---|
| `wrappers.dfy` | `Wrappers` | `Option` and `Result` |
| `text.dfy` | `Text` | the JavaScript string operations the code uses |
| `sequences.dfy` | `Sequences` | `Array.prototype.filter` |
| `asset_paths.dfy` | `AssetPaths` | `src/lib/utils.js` |
| `library.dfy` | `Library` | the catalog and its filter → search → sort pipeline |
| `play_time.dfy` | `PlayTime` | the player page's play-time clock |
| `player_page.dfy` | `PlayerPage` | the other player page helpers |
| `dom.dfy` | `Dom` | an abstract page, `Window` (see below) |
| `simple_game_player.dfy` | `SimpleGamePlayer` | the fallback player |
| `gba_emulator.dfy` | `GbaEmulator` | the EmulatorJS wrapper |
| `system_names.dfy` | `SystemNaming` | ties the page's system ids to the fallback player's names |

The JavaScript string operations modelled in `Text` are `toLowerCase`,
`toUpperCase`, `trim`, `includes`, `String(n)` and `padStart`, plus an order
that stands in for `localeCompare`.

The pure parts are functions with lemmas. The two player classes change
state in place, so they are Dafny classes over a shared `Dom.Window`. The
window holds:

- the elements in the canvas's container, each with an identity, an `id` and
  a child count; no identity occurs twice, which is what makes
  `element.remove()` take out exactly one element;
- the canvas's visibility;
- the `<head>` stylesheet and script tags;
- the `window.EmulatorJS` and `window.__emulatorjsLoading` globals.

The asynchronous `ensureAssets` is split at its `await`:

1. `BeginAssets` runs the synchronous part and returns a `Ticket` naming the
   promise the call now waits on.
2. The page settles that promise (`Window.SettleScript`).
3. `FinishAssets` runs the continuation.

`loadROM` is `BeginAssets` followed by `CompleteLoad`.

## Model

| member | source | states |
|---|---|---|
| AssetPaths.BaseUrl | src/lib/utils.js:11-13 | the base is `BASE_URL` when that is set and non-empty, otherwise `/`; it is never empty |
| AssetPaths.AssetPath | src/lib/utils.js:2-8 | the result starts with the base; its length is \|base\| + \|path\| − 1 when the path starts with `/`, else \|base\| + \|path\|; without a leading slash it is exactly base + path |
| AssetPaths.BaseUrlIsAssetPrefix | src/lib/utils.js:2-13 | `getBaseUrl()` is exactly the prefix `getAssetPath` puts before every path; the empty path gives the base itself |
| AssetPaths.LeadingSlashNormalised | src/lib/utils.js:4 | for a path `p` not starting with `/`, `"/" + p` and `p` give the same asset path |
| AssetPaths.OnlyOneSlashRemoved | src/lib/utils.js:4 | the regex has no `g` flag, so `"//" + x` gives base + `"/" + x` |
| Text.Lower | src/pages/LibraryPage.jsx:34-35 | `toLowerCase` keeps the length, turns each upper-case ASCII letter `A`–`Z` into its lower-case letter (code point + 32), and changes no other character |
| Text.Upper | src/lib/gba-emulator.js:99 | `toUpperCase` keeps the length, turns each lower-case ASCII letter `a`–`z` into its upper-case letter (code point − 32), and changes no other character |
| Text.LowerIdempotent | src/pages/LibraryPage.jsx:34-35 | lower-casing twice is lower-casing once |
| Text.TrimStart | src/pages/LibraryPage.jsx:33-34 | the leading whitespace goes: the result is a suffix of the string, what was dropped is all whitespace, and the result is empty or starts with a non-whitespace character |
| Text.TrimEnd | src/pages/LibraryPage.jsx:33-34 | the trailing whitespace goes: the result is a prefix of the string, what was dropped is all whitespace, and the result is empty or ends with a non-whitespace character |
| Text.Trim | src/pages/LibraryPage.jsx:33-34 | `trim`: the result is a slice of the string with only ECMAScript whitespace before and after it; it is empty iff the string is all whitespace; otherwise it starts and ends with a non-whitespace character |
| Text.TrimSlice | src/pages/LibraryPage.jsx:33-34 | dropping leading and then trailing whitespace leaves a slice that whitespace alone surrounds |
| Text.TrimEnds | src/pages/LibraryPage.jsx:33-34 | after both steps the result is empty exactly for an all-whitespace string, and otherwise has non-whitespace at both ends |
| Text.TrimLower | src/pages/LibraryPage.jsx:34 | trimming and lower-casing commute, so `query.trim().toLowerCase()` is the lower-cased trimmed query |
| Text.Contains | src/pages/LibraryPage.jsx:35 | `includes` holds iff the needle occurs at some index |
| Text.Compare | src/pages/LibraryPage.jsx:42-44 | the title order's result is always -1, 0 or 1 (its meaning is stated by the three lemmas below) |
| Text.CompareAntisymmetric | src/pages/LibraryPage.jsx:42-44 | swapping the operands of the title order negates it, so `title-desc` is `title-asc` reversed |
| Text.CompareZero | src/pages/LibraryPage.jsx:42 | two titles compare equal iff they are the same string |
| Text.CompareTransitive | src/pages/LibraryPage.jsx:42 | the title order is transitive |
| Text.DecimalString | src/pages/PlayerPage.jsx:177 | `String(n)` is never empty; it is one digit iff `n < 10`, two digits for 10..99 |
| Text.DecimalDigits | src/pages/PlayerPage.jsx:177 | `String(n)` is all digits, reads back as `n`, and starts with `0` only for 0 |
| Text.PadStart | src/pages/PlayerPage.jsx:177 | `padStart`: the string ends the result, the rest is fill, and the length is the larger of the width and the string's length |
| Text.LeadingZero | src/pages/PlayerPage.jsx:177 | a padding `0` does not change the value a field reads as |
| Sequences.Keep | src/pages/LibraryPage.jsx:27-35 | `filter` never lengthens the list (its contents are stated by the two lemmas below) |
| Sequences.KeepCounts | src/pages/LibraryPage.jsx:26-36 | `filter` keeps each element satisfying the predicate as many times as it occurs, and no other |
| Sequences.KeepMembers | src/pages/LibraryPage.jsx:26-36 | an element survives `filter` iff it occurs in the list and satisfies the predicate |
| Sequences.KeepConcat | src/pages/LibraryPage.jsx:26-36 | filtering a concatenation filters each part, so `filter` keeps the original order |
| Library.RomPath | src/pages/LibraryPage.jsx:15-22 | every catalog ROM path begins with the deployment base |
| Library.CatalogOnConsoleTabs | src/pages/LibraryPage.jsx:12-23 | every catalog game's console is one of the four console tabs, so each game can be reached by a tab |
| Library.CatalogIdsDistinct | src/pages/LibraryPage.jsx:14-23 | the catalog ids are strictly increasing, so no two games share an id and a favourite id names at most one game |
| Library.Consoles | src/pages/LibraryPage.jsx:12 | the tabs are `FAVORITES` alone when `defaultFilter` is `FAVORITES`; otherwise six tabs: `ALL`, `FAVORITES`, then `GBA`, `NES`, `NDS`, `SegaCD` |
| Library.SelectTab | src/pages/LibraryPage.jsx:26-30 | a game is kept, as often as it occurs, iff it is on the tab: `FAVORITES` by favourite id, `ALL` for every game, any other tab by equal console; `ALL` returns the list itself |
| Library.Search | src/pages/LibraryPage.jsx:33-36 | a game is kept iff its lower-cased title contains the trimmed, lower-cased query; a blank query keeps the list unchanged |
| Library.BlankQueryKeepsAll | src/pages/LibraryPage.jsx:33 | an empty or all-whitespace query filters nothing |
| Library.SearchIgnoresQueryCase | src/pages/LibraryPage.jsx:34-35 | the query's case does not matter |
| Library.Cmp | src/pages/LibraryPage.jsx:39-51 | the comparator: for the title keys it is 0 exactly for equal titles; `year-asc` is negative exactly when `a` is older and `year-desc` exactly when `a` is newer, and both are 0 exactly for equal years (a missing year counting as 0); an unrecognised key gives 0 |
| Library.CmpAntisymmetric | src/pages/LibraryPage.jsx:39-51 | every sort key's comparator is antisymmetric |
| Library.CmpTransitive | src/pages/LibraryPage.jsx:39-51 | every sort key's comparator is transitive, so the sort is well defined |
| Library.Insert | src/pages/LibraryPage.jsx:39 | one insertion step adds exactly the new game |
| Library.InsertSorted | src/pages/LibraryPage.jsx:39-51 | inserting into a sorted list keeps it sorted |
| Library.SortStep | src/pages/LibraryPage.jsx:39 | inserting the head into the sorted rest gives a sorted permutation of the whole list |
| Library.SortBy | src/pages/LibraryPage.jsx:39-52 | the sorted list is a permutation of its input and is ordered by the comparator |
| Library.SortKeys | src/pages/LibraryPage.jsx:41-48 | `title-asc` gives non-decreasing titles and `title-desc` non-increasing ones; `year-asc` gives non-decreasing years and `year-desc` non-increasing ones, a missing year counting as 0 |
| Library.KeepLevelInsert | src/pages/LibraryPage.jsx:39 | an insertion step puts the new game before every game in the list that the comparator ranks level with it, and moves none of those |
| Library.LevelNotPast | src/pages/LibraryPage.jsx:39-51 | two games in strict order are never both level with a third |
| Library.SortStable | src/pages/LibraryPage.jsx:39-52 | the sort is stable: games the comparator ranks level keep their input order |
| Library.UnknownKeyKeepsOrder | src/pages/LibraryPage.jsx:49-50 | an unrecognised key compares every pair as 0, and the list keeps its order |
| Library.Filtered | src/pages/LibraryPage.jsx:26-52 | the page's list holds each game that is on the tab and matches the search, as often as in the catalog, sorted by the key |
| Library.FilteredMembers | src/pages/LibraryPage.jsx:26-52 | a game is listed iff it is in the catalog, on the tab and matches the search |
| Library.FilteredUnknownKey | src/pages/LibraryPage.jsx:26-52 | with an unrecognised sort key the list is in catalog order |
| PlayTime.Field | src/pages/PlayerPage.jsx:177 | a padded clock field is at least two characters, and exactly two below 100 |
| PlayTime.FieldDigits | src/pages/PlayerPage.jsx:177 | a padded clock field is all digits and reads back as its number |
| PlayTime.FormatTime | src/pages/PlayerPage.jsx:173-178 | the clock has `:` before the last two fields, and is exactly 8 characters when `s < 360000` |
| PlayTime.ClockFields | src/pages/PlayerPage.jsx:174-176 | the hours, minutes and seconds recombine to `s`; minutes and seconds lie in 0..59; hours are below 100 when `s < 360000` |
| PlayTime.ReadJoined | src/pages/PlayerPage.jsx:177 | three digit fields joined with `:` read back as their clock value |
| PlayTime.FormatTimeRoundTrip | src/pages/PlayerPage.jsx:173-178 | reading the formatted clock back gives the number of seconds it was made from |
| PlayerPage.GameDetails | src/pages/PlayerPage.jsx:5-72 | a listed title gets its table record; any other title gets exactly the default record (region `Unknown Region`, genre `Classic Game`, developer and publisher `Unknown`), and only an unlisted title gets that region |
| PlayerPage.CatalogTitlesHaveDetails | src/pages/PlayerPage.jsx:5-72 | every title in the library catalog has its own details record |
| PlayerPage.SystemFor | src/pages/PlayerPage.jsx:153-156 | `NES` → `nes`, `SegaCD` → `segaCD`, `NDS` → `nds`; every other console, `GBA` and `Genesis` included, → `gba` |
| PlayerPage.CurrentGame | src/pages/PlayerPage.jsx:75 | a given game (any object is truthy) is used unchanged; with none, the page uses the placeholder titled `SELECT A GAME` on console `N/A` with no ROM path |
| PlayerPage.CatalogPageGame | src/pages/LibraryPage.jsx:15-22 | the object handed over for a catalog game carries its id, title and console, and its catalog ROM path |
| PlayerPage.OnMount | src/pages/PlayerPage.jsx:122-127 | the ROM fetch and the timer start exactly when the ROM path is present and not empty (the truthiness test); otherwise loading is cleared at once |
| PlayerPage.CatalogGameLoads | src/pages/PlayerPage.jsx:75-127 | a catalog game has a ROM path under the deployment base, so opening it fetches the ROM and starts the timer |
| PlayerPage.NoRomPathNoFetch | src/pages/PlayerPage.jsx:122-127 | a given game whose ROM path is missing or empty fetches nothing, starts no timer and clears loading |
| PlayerPage.NoGameNoLoad | src/pages/PlayerPage.jsx:75-127 | opened without a game, the page shows the default details, fetches nothing, starts no timer and clears loading |
| SimpleGamePlayer.StripRomExtension | src/lib/simple-game-player.js:142-143 | the result is a prefix of the name; exactly four characters go when the name ends in `.gba`, `.nes`, `.nds` or `.cue`, otherwise nothing |
| SimpleGamePlayer.ReplaceUnderscores | src/lib/simple-game-player.js:143 | same length, each `_` replaced by a space and nothing else changed; no `_` remains |
| SimpleGamePlayer.GameTitle | src/lib/simple-game-player.js:131-144 | a name whose lower-cased, extension-stripped key is in the table gets that title; any other name keeps its own characters, minus a case-sensitive trailing extension, with each `_` turned into a space and no `_` left |
| SimpleGamePlayer.ExtensionStrippedOnce | src/lib/simple-game-player.js:142-143 | only the last extension is removed: `a.gba.gba` gives `a.gba` |
| SimpleGamePlayer.KnownRomInAnyCase | src/lib/simple-game-player.js:142 | the key is lower-cased, so `PACMAN.GBA` finds `Pac-Man` |
| SimpleGamePlayer.FallbackKeepsUpperCaseExtension | src/lib/simple-game-player.js:143 | the fallback strips the extension case-sensitively: `My_Hack.GBA` gives `My Hack.GBA` |
| SimpleGamePlayer.TitleKeyIgnoresCase | src/lib/simple-game-player.js:142 | names that differ only in case have the same key and, when known, the same title |
| SimpleGamePlayer.SystemName | src/lib/simple-game-player.js:146-154 | a system whose lower-cased id is `gba`, `nes`, `nds` or `segacd` gets its display name; any other string comes back unchanged |
| SimpleGamePlayer.SegaCdName | src/lib/simple-game-player.js:146-154 | `segaCD` and `SEGACD` both give `Sega CD` |
| SimpleGamePlayer.SimpleGamePlayer.constructor | src/lib/simple-game-player.js:3-8 | the player is bound to its canvas's page and its system |
| SimpleGamePlayer.SimpleGamePlayer.CreateGameDisplay | src/lib/simple-game-player.js:19-122 | the canvas is hidden; with a parent, exactly one `simple-game-display` panel is appended and nothing else in the container changes; without one, the container is unchanged |
| SimpleGamePlayer.SimpleGamePlayer.LoadRom | src/lib/simple-game-player.js:10-17 | loading a ROM shows the panel, as `CreateGameDisplay` |
| SimpleGamePlayer.SimpleGamePlayer.Cleanup | src/lib/simple-game-player.js:235-242 | every panel is removed, everything else stays in order, and the canvas is shown; when there is no panel, the container is unchanged |
| SimpleGamePlayer.CleanupAfterDisplays | src/lib/simple-game-player.js:235-242 | panels appended after a cleanup are all removed by the next one |
| SystemNaming.PageSystemsHaveNames | src/pages/PlayerPage.jsx:153-156 | every system id the player page picks has a display name in the fallback player |
| Dom.Without | src/lib/simple-game-player.js:236-237 | removing by id never adds elements to the container (exactly which remain is stated by the lemmas below) |
| Dom.WithoutMembers | src/lib/simple-game-player.js:236-237 | `querySelectorAll('#' + id)` then `remove()` on each, over the container's elements: exactly the container's elements with another id remain |
| Dom.WithoutSnoc | src/lib/simple-game-player.js:236-237 | the removal visits elements in document order: each one stays exactly when it lacks the id |
| Dom.WithoutIdempotent | src/lib/simple-game-player.js:235-242 | removing the elements with an id a second time removes nothing |
| Dom.WithoutAbsent | src/lib/gba-emulator.js:170-171 | when no element has the id, nothing is removed |
| Dom.Find | src/lib/gba-emulator.js:160-165 | the position of an attached element, or that it is not attached |
| Dom.Detach | src/lib/gba-emulator.js:165 | detaching never adds elements |
| Dom.DetachMembers | src/lib/gba-emulator.js:165 | `element.remove()`: exactly the other elements remain |
| Dom.DetachUpdated | src/lib/gba-emulator.js:162-165 | emptying an element before it is detached makes no difference to what remains |
| Dom.Window.constructor | src/lib/gba-emulator.js:9 | `canvasHasParent` stands for `canvas.parentElement` being an element; the rest is the page the model starts from: no EmulatorJS, no load in flight, no tags, an empty container and a visible canvas |
| Dom.Window.SingleFlight | src/lib/gba-emulator.js:18-24 | at most one loading promise is pending at any time |
| Dom.Window.CreateElement | src/lib/gba-emulator.js:85 | `createElement` gives a new identity |
| Dom.Window.AppendChild | src/lib/gba-emulator.js:89 | `appendChild` of a created, detached element puts it last and keeps every identity in the container distinct |
| Dom.Window.FillLast | src/lib/gba-emulator.js:97-105 | the runtime renders into the element appended last: only its child count changes |
| Dom.Window.RemoveAll | src/lib/gba-emulator.js:170-171 | the removal loop leaves exactly the container without the elements with the id |
| Dom.Window.StartLoad | src/lib/gba-emulator.js:24-56 | a new loading promise: the marker holds the new pending cycle, one script tag is added, and a stylesheet tag only when there is none |
| Dom.Window.SettleScript | src/lib/gba-emulator.js:44-51 | a script's `load` fulfils and its `error` rejects the pending promise, and a load may define `EmulatorJS`; a settled promise does not change again |
| GbaEmulator.Invoked | src/lib/gba-emulator.js:146-157 | the methods a `try` block calls are at most as many as it names, and each is named and present on the runtime |
| GbaEmulator.InvokedIsPrefix | src/lib/gba-emulator.js:146-157 | the calls made are a prefix of the present methods, in order |
| GbaEmulator.InvokedOnlyLastThrows | src/lib/gba-emulator.js:146-157 | no call before the last one threw |
| GbaEmulator.InvokedShortOnlyOnThrow | src/lib/gba-emulator.js:146-157 | the block stops before the end of the present methods only after a call that threw |
| GbaEmulator.InvokedPrefix | src/lib/gba-emulator.js:146-157 | the runtime methods called are the present ones in order, stopping after the first that throws: only the last call can have thrown |
| GbaEmulator.InvokedAllWhenNoneThrows | src/lib/gba-emulator.js:146-157 | when none of the runtime's methods throws, all present ones are called |
| GbaEmulator.TeardownOfDestroyOnly | src/lib/gba-emulator.js:149-152 | a runtime with only `destroy` gets exactly that call |
| GbaEmulator.StopThrowsSkipsRest | src/lib/gba-emulator.js:147-155 | when `stop` throws, `pause`, `destroy` and `exit` are skipped |
| GbaEmulator.TeardownCallsAllPresent | src/lib/gba-emulator.js:149-152 | with nothing throwing, teardown calls every present method in the order stop, pause, destroy, exit |
| GbaEmulator.StylesheetUrl | src/lib/gba-emulator.js:32 | the stylesheet is `data/emulator.min.css` under the deployment base |
| GbaEmulator.ScriptUrl | src/lib/gba-emulator.js:40 | the script is `data/emulator.min.js` under the deployment base |
| GbaEmulator.EmulatorOptions | src/lib/gba-emulator.js:95-105 | the runtime gets the system, the game name (upper-cased system + ` Game`), the `data/` asset path, an empty BIOS URL and `startOnLoad` |
| GbaEmulator.AssetsUnderDataPath | src/lib/gba-emulator.js:32-95 | the script and the stylesheet are loaded from the data path the runtime is told about |
| GbaEmulator.DataAsset | src/lib/gba-emulator.js:32-40 | a file's asset path under `data/` is the data directory's asset path followed by the file name |
| GbaEmulator.AssetsOutcome | src/lib/gba-emulator.js:17-68 | an already defined runtime gives true; a caller that joined another's load gets that load's rejection; the caller that started the load never rejects; the result is true exactly when the awaited load succeeded and EmulatorJS is defined |
| GbaEmulator.GBAEmulator.constructor | src/lib/gba-emulator.js:6-13 | no element and no runtime yet |
| GbaEmulator.GBAEmulator.BeginAssets | src/lib/gba-emulator.js:16-56 | nothing is inserted when EmulatorJS is defined or a load is in flight; a new load adds one script, adds the stylesheet only when none exists, and sets the marker; at most one stylesheet ever, and one script per load |
| GbaEmulator.GBAEmulator.FinishAssets | src/lib/gba-emulator.js:18-68 | the result is `AssetsOutcome`; the starting caller clears the marker unless EmulatorJS is now defined, so a failed load can be retried; a joining caller leaves the marker alone |
| GbaEmulator.GBAEmulator.CompleteLoad | src/lib/gba-emulator.js:71-113 | when the assets are not ready, the result is false (or the rejection) and neither the canvas nor the container changes; otherwise the canvas is hidden and a `#game` element created; with a parent and a runtime, one `#game` element is appended, the instance is set and the result is true; when a step throws, the result is false and nothing is rolled back |
| GbaEmulator.GBAEmulator.Mount | src/lib/gba-emulator.js:80-112 | the canvas is hidden and a new `#game` element created; it is appended only with a parent, and the runtime is set only when its constructor did not throw; the result is true exactly when both happened |
| GbaEmulator.GBAEmulator.Invoke | src/lib/gba-emulator.js:123-124 | `if (i.m) i.m()`: the method is called exactly when present, and the call throws exactly when it is one that throws |
| GbaEmulator.GBAEmulator.TryCall | src/lib/gba-emulator.js:149-152 | one statement of a `try` block: it is skipped once an earlier call threw, so the calls made so far plus those still to come are the block's calls |
| GbaEmulator.GBAEmulator.Pause | src/lib/gba-emulator.js:119-134 | `pause` then `pauseGame` are tried; an error is swallowed; nothing happens without a runtime |
| GbaEmulator.GBAEmulator.Reset | src/lib/gba-emulator.js:136-140 | `reset` is called when present, and its error is not caught |
| GbaEmulator.GBAEmulator.StopRuntime | src/lib/gba-emulator.js:146-157 | the teardown calls made are those of one `try` block, and the runtime is dropped either way |
| GbaEmulator.GBAEmulator.RemoveDiv | src/lib/gba-emulator.js:160-167 | the element is emptied child by child, then detached, and the field is cleared |
| GbaEmulator.GBAEmulator.Destroy | src/lib/gba-emulator.js:142-179 | afterwards there is no runtime, no element field and no `#game` element, and the canvas is shown; everything else in the container stays in order; a second call changes nothing |

## Left out

- Console logging, the HTML and CSS of the panels (`src/lib/simple-game-player.js:28-115`), the demo screen (`startGameDemo`, lines 156-233) and the start button's click handler are left out: they are presentation only.
- The panel's ROM size in MB (`src/lib/simple-game-player.js:70`) is left out: it is floating point through `toFixed`.
- Non-ASCII case mapping is left out: `toLowerCase` and `toUpperCase` are modelled on ASCII letters only.
- `localeCompare` is modelled as lexicographic order by Unicode code point. Locale collation rules are not part of this model.
- Strings are sequences of Unicode scalar values, so a character outside the Basic Multilingual Plane counts as one character where JavaScript counts two UTF-16 code units. Lengths and indices in `Trim`, `PadStart`, `StripRomExtension` and `GameTitle` differ from JavaScript's for such characters.
- The removals by id (`document.querySelectorAll('#simple-game-display')` at `src/lib/simple-game-player.js:236` and `document.querySelectorAll('#game')` at `src/lib/gba-emulator.js:170`) search the whole document. The model sees only the canvas's container, so an element with that id elsewhere in the page, such as another player's panel or a stale `#game` element outside the container, is removed by the code but not represented in the model.
- The constructors' default `system = 'gba'` (`src/lib/simple-game-player.js:3`, `src/lib/gba-emulator.js:6`) is left out: the model's constructors always take the system as an argument, so a call that omits it is not modelled.
- Table lookups (`titles[key]`, `systems[...]`, `details[gameTitle]`) are modelled as map lookups. Keys inherited from `Object.prototype` (such as `constructor`) are not modelled.
- `fetch`, `arrayBuffer`, `Blob`, `URL.createObjectURL`, `setInterval` and React state updates are left out because they are I/O, timers or framework code.
- The ROM's blob URL given to EmulatorJS is not part of `Options`.
- The EmulatorJS runtime is opaque: a set of methods it has, the set that throw, and how many elements it renders.
- GbaEmulator.GBAEmulator.CompleteLoad: the runtime's elements are placed in the `#game` element just appended. EmulatorJS selects `'#game'` in document order, so with a stale `#game` element still present it would mount there instead; that is not modelled.
- The script's `data-emulatorjs` attribute, `async` flag and the `try`/`catch` around tag creation are left out: creating tags is modelled as not failing.
- Interleavings of `ensureAssets` are limited to the begin / settle / finish steps; which microtask runs first is not modelled. Each ticket is finished once, after its promise settles.
- `start()` of `GBAEmulator` only logs and is left out.
- The player page's wiring of the fallback player is left out because it does not work as written. It calls `start()` and `destroy()`, which `SimpleGamePlayer` does not define (`src/pages/PlayerPage.jsx:117,136,158-159`). It also calls `loadROM` without a file name.
- The player page's own unmount clean-up (`src/pages/PlayerPage.jsx:130-144`) and ROM loading (90-111) are left out: refs, fetch and React effects.
- The placeholder's year `'----'` is not carried in `PageGame`: it is display text only.
- src/pages/HomePage.jsx, src/pages/ProfilePage.jsx and src/components/GBAEmulator.jsx are not part of this model: they are rendering, storage and a fetch stub.
