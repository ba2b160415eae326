/** The EmulatorJS wrapper (src/lib/gba-emulator.js): loading the runtime's
    stylesheet and script into `<head>` once per page, mounting a runtime in a
    `#game` element, forwarding pause and reset to it, and tearing it down.

    `ensureAssets` is asynchronous. It is modelled in two steps around its
    `await`: `BeginAssets` runs up to the `await` and hands back a `Ticket` for
    the promise the call waits on; the page settles that promise
    (`Window.SettleScript`); `FinishAssets` runs the rest of the call once it
    has. `loadROM` is `BeginAssets` followed by `CompleteLoad`. */
module GbaEmulator {
  import opened Wrappers
  import opened Text
  import opened AssetPaths
  import opened Dom

  // ---------------------------------------------------------------- the runtime

  /** The optional methods of an EmulatorJS instance the wrapper may call. */
  datatype Capability = Pause | PauseGame | Reset | Stop | Destroy | Exit

  /** What the wrapper can see of a runtime instance: which methods it has,
      which of those throw when called, and how many elements it renders into
      its `#game` element. */
  datatype Runtime = Runtime(caps: set<Capability>, throwing: set<Capability>, renders: nat)

  /** The options object given to `new EmulatorJS('#game', …)`; the blob URL of
      the ROM is not modelled. */
  datatype Options = Options(system: string, gameName: string, dataPath: string,
                             biosUrl: string, startOnLoad: bool, color: string)

  /** A mounted runtime and what it was constructed with. */
  datatype Instance = Instance(selector: string, options: Options, runtime: Runtime)

  const GameId := "game"
  const GameSelector := "#game"
  const LoadFailed := "EmulatorJS load failed"

  /** The methods `pause()` tries, in order. */
  const PauseCalls := [Pause, PauseGame]
  /** The methods `destroy()` tries, in order. */
  const TeardownCalls := [Stop, Pause, Destroy, Exit]

  /** The methods of `order` that the runtime has, in order. */
  function Present(order: seq<Capability>, rt: Runtime): seq<Capability> {
    if order == [] then []
    else (if order[0] in rt.caps then [order[0]] else []) + Present(order[1..], rt)
  }

  /** `if (i.m) i.m()` for each `m` of `order` in one `try` block: the methods
      actually called. Absent methods are skipped, and the first one that throws
      ends the block. */
  function Invoked(order: seq<Capability>, rt: Runtime): (calls: seq<Capability>)
    ensures |calls| <= |order|
    ensures forall c :: c in calls ==> c in order && c in rt.caps
  {
    if order == [] then []
    else if order[0] !in rt.caps then Invoked(order[1..], rt)
    else if order[0] in rt.throwing then [order[0]]
    else [order[0]] + Invoked(order[1..], rt)
  }

  /** The calls made are the runtime's methods in order, up to and including the
      first one that throws: only the last call can have thrown, and the block
      stops short only because one did. */
  lemma InvokedPrefix(order: seq<Capability>, rt: Runtime)
    ensures Invoked(order, rt) <= Present(order, rt)
    ensures NoneThrewBeforeLast(Invoked(order, rt), rt)
    ensures var calls := Invoked(order, rt);
      calls != Present(order, rt) ==> calls != [] && calls[|calls| - 1] in rt.throwing
  {
    InvokedIsPrefix(order, rt);
    InvokedOnlyLastThrows(order, rt);
    InvokedShortOnlyOnThrow(order, rt);
  }

  lemma {:induction false} InvokedIsPrefix(order: seq<Capability>, rt: Runtime)
    ensures Invoked(order, rt) <= Present(order, rt)
  {
    if order != [] {
      InvokedIsPrefix(order[1..], rt);
    }
  }

  /** No call before the last one threw. */
  predicate NoneThrewBeforeLast(calls: seq<Capability>, rt: Runtime) {
    forall i :: 0 <= i < |calls| - 1 ==> calls[i] !in rt.throwing
  }

  lemma {:induction false} InvokedOnlyLastThrows(order: seq<Capability>, rt: Runtime)
    ensures NoneThrewBeforeLast(Invoked(order, rt), rt)
  {
    if order != [] && order[0] in rt.caps && order[0] !in rt.throwing {
      InvokedOnlyLastThrows(order[1..], rt);
      var calls, tail := Invoked(order, rt), Invoked(order[1..], rt);
      assert calls == [order[0]] + tail;
      forall i | 0 <= i < |calls| - 1
        ensures calls[i] !in rt.throwing
      {
        if i > 0 {
          assert calls[i] == tail[i - 1];
        }
      }
    } else if order != [] && order[0] !in rt.caps {
      InvokedOnlyLastThrows(order[1..], rt);
    }
  }

  lemma {:induction false} InvokedShortOnlyOnThrow(order: seq<Capability>, rt: Runtime)
    ensures var calls := Invoked(order, rt);
      calls != Present(order, rt) ==> calls != [] && calls[|calls| - 1] in rt.throwing
  {
    if order != [] {
      InvokedShortOnlyOnThrow(order[1..], rt);
    }
  }

  /** When none of the runtime's methods throws, every one of them is called. */
  lemma {:induction false} InvokedAllWhenNoneThrows(order: seq<Capability>, rt: Runtime)
    requires forall c :: c in order && c in rt.caps ==> c !in rt.throwing
    ensures Invoked(order, rt) == Present(order, rt)
  {
    if order != [] {
      assert forall c :: c in order[1..] ==> c in order;
      InvokedAllWhenNoneThrows(order[1..], rt);
    }
  }

  /** One step of `Invoked`: the first method of `order`, then the rest unless it threw. */
  lemma Unfold(order: seq<Capability>, rt: Runtime)
    requires order != []
    ensures Invoked(order, rt) ==
      (if order[0] !in rt.caps then [] else [order[0]]) +
      (if order[0] in rt.caps && order[0] in rt.throwing then [] else Invoked(order[1..], rt))
  {
  }

  /** A runtime that has only `destroy` gets exactly that call on teardown. */
  lemma TeardownOfDestroyOnly(rt: Runtime)
    requires rt.caps == {Destroy}
    ensures Invoked(TeardownCalls, rt) == [Destroy]
  {
    Unfold(TeardownCalls, rt);
    Unfold(TeardownCalls[1..], rt);
    Unfold(TeardownCalls[2..], rt);
    Unfold(TeardownCalls[3..], rt);
    assert TeardownCalls[4..] == [];
  }

  /** When `stop` throws, `pause`, `destroy` and `exit` are skipped. */
  lemma StopThrowsSkipsRest(rt: Runtime)
    requires Stop in rt.caps && Stop in rt.throwing
    ensures Invoked(TeardownCalls, rt) == [Stop]
  {
  }

  /** With nothing throwing, teardown calls every method the runtime has, in the
      order stop, pause, destroy, exit. */
  lemma TeardownCallsAllPresent(rt: Runtime)
    requires rt.throwing == {}
    ensures Invoked(TeardownCalls, rt) == Present(TeardownCalls, rt)
  {
    InvokedAllWhenNoneThrows(TeardownCalls, rt);
  }

  // ---------------------------------------------------------------- assets

  /** The directory, relative to the base, that holds the runtime's files. */
  const DataDir := "data/"

  /** The stylesheet's `href`: the asset path of `data/emulator.min.css`. */
  function StylesheetUrl(env: Option<string>): (u: string)
    ensures u == BaseUrl(env) + "data/emulator.min.css"
  {
    AssetPath(env, DataDir + "emulator.min.css")
  }

  /** The script's `src`: the asset path of `data/emulator.min.js`. */
  function ScriptUrl(env: Option<string>): (u: string)
    ensures u == BaseUrl(env) + "data/emulator.min.js"
  {
    AssetPath(env, DataDir + "emulator.min.js")
  }

  /** The options `loadROM` passes for `system`. */
  function EmulatorOptions(env: Option<string>, system: string): (o: Options)
    ensures o.system == system && o.gameName == Upper(system) + " Game"
    ensures o.dataPath == AssetPath(env, DataDir) && o.biosUrl == "" && o.startOnLoad
  {
    Options(system, Upper(system) + " Game", AssetPath(env, DataDir), "", true, "#06b6d4")
  }

  /** The script and the stylesheet come from the data path the runtime is
      told about. */
  lemma AssetsUnderDataPath(env: Option<string>, system: string)
    ensures ScriptUrl(env) == EmulatorOptions(env, system).dataPath + "emulator.min.js"
    ensures StylesheetUrl(env) == EmulatorOptions(env, system).dataPath + "emulator.min.css"
  {
    DataAsset(env, "emulator.min.js");
    DataAsset(env, "emulator.min.css");
  }

  /** A file under `data/` is found under the data path. */
  lemma DataAsset(env: Option<string>, f: string)
    ensures AssetPath(env, DataDir + f) == AssetPath(env, DataDir) + f
  {
    assert (DataDir + f)[0] == 'd';
  }

  /** The promise an `ensureAssets` call waits on: none (`EmulatorJS` was
      already there), the marker another call set (`Joined`), or the one this
      call created (`Started`). */
  datatype Ticket = Defined | Joined(cycle: nat) | Started(cycle: nat)

  /** `ensureAssets` resolved to true. */
  predicate Ready(r: Result<bool, string>) {
    r.Success? && r.value
  }

  /** What `ensureAssets` resolves to, or rejects with, once the promise behind
      its ticket has settled. A caller that joined another's load gets that
      load's rejection; the caller that started it never rejects. */
  function AssetsOutcome(t: Ticket, cycles: seq<Settlement>, defined: bool): (r: Result<bool, string>)
    requires t.Defined? || (t.cycle < |cycles| && cycles[t.cycle] != Pending)
    ensures r.Failure? <==> t.Joined? && cycles[t.cycle] == Rejected
    ensures r.Failure? ==> r.error == LoadFailed
    ensures Ready(r) <==> t.Defined? || (cycles[t.cycle] == Fulfilled && defined)
  {
    if t.Defined? then Success(true)
    else match cycles[t.cycle]
      case Fulfilled => Success(defined)
      case Rejected => if t.Joined? then Failure(LoadFailed) else Success(false)
  }

  // ---------------------------------------------------------------- the wrapper

  class GBAEmulator {
    /** The page; its canvas is the one the wrapper was built on. */
    const win: Window
    const system: string
    /** `this.emulatorDiv`: the identity of the `#game` element it created. */
    var emulatorDiv: Option<nat>
    /** `this.emulatorInstance` */
    var emulatorInstance: Option<Instance>
    /** The runtime methods called so far, in order. */
    ghost var invoked: seq<Capability>

    ghost predicate Valid()
      reads this, win
    {
      win.Valid() && (emulatorInstance.Some? ==> emulatorDiv.Some?)
    }

    /** Torn down: no runtime, no `#game` element, the canvas shown. */
    ghost predicate Destroyed()
      reads this, win
    {
      && emulatorInstance.None? && emulatorDiv.None? && win.canvasShown
      && forall n :: n in win.nodes ==> n.id != GameId
    }

    /** `new GBAEmulator(canvas, system)` */
    constructor (win: Window, system: string)
      requires win.Valid()
      ensures Valid()
      ensures this.win == win && this.system == system
      ensures emulatorDiv.None? && emulatorInstance.None? && invoked == []
    {
      this.win := win;
      this.system := system;
      emulatorDiv := None;
      emulatorInstance := None;
      invoked := [];
    }

    /** `ensureAssets()` up to its `await`. Nothing is inserted when EmulatorJS is
        defined or a load is in flight; otherwise a new loading cycle adds one
        script, and the stylesheet if there is none yet. */
    method BeginAssets() returns (t: Ticket)
      requires win.Valid()
      modifies win`loading, win`cycles, win`starters, win`stylesheets, win`scripts
      ensures win.Valid()
      ensures old(win.emulatorJsDefined) ==> t == Defined
      ensures !old(win.emulatorJsDefined) && old(win.loading).Some? ==> t == Joined(old(win.loading).value)
      ensures !old(win.emulatorJsDefined) && old(win.loading).None? ==> t == Started(|old(win.cycles)|)
      ensures t.Joined? ==> t.cycle < |win.cycles|
      ensures !t.Started? ==>
        && win.loading == old(win.loading) && win.cycles == old(win.cycles) && win.starters == old(win.starters)
        && win.stylesheets == old(win.stylesheets) && win.scripts == old(win.scripts)
      ensures t.Started? ==>
        && win.cycles == old(win.cycles) + [Pending]
        && win.loading == Some(t.cycle) && win.starters == {t.cycle}
        && win.scripts == old(win.scripts) + [ScriptUrl(win.env)]
        && win.stylesheets == (if old(win.stylesheets) == [] then [StylesheetUrl(win.env)] else old(win.stylesheets))
      ensures |win.stylesheets| <= 1 && |win.scripts| == |win.cycles|
    {
      if win.emulatorJsDefined {
        return Defined;
      }
      if win.loading.Some? {
        return Joined(win.loading.value);
      }
      var c := win.StartLoad(ScriptUrl(win.env), StylesheetUrl(win.env));
      t := Started(c);
    }

    /** `ensureAssets()` after its promise has settled. The caller that started
        the load clears the marker unless EmulatorJS became defined, so a failed
        load can be retried; a caller that joined leaves it alone. */
    method FinishAssets(t: Ticket) returns (r: Result<bool, string>)
      requires win.Valid()
      requires t.Defined? || (t.cycle < |win.cycles| && win.cycles[t.cycle] != Pending)
      requires t.Started? ==> t.cycle in win.starters
      modifies win`loading, win`starters
      ensures win.Valid()
      ensures r == AssetsOutcome(t, win.cycles, win.emulatorJsDefined)
      ensures t.Started? ==>
        && win.starters == old(win.starters) - {t.cycle}
        && win.loading == (if win.emulatorJsDefined then old(win.loading) else None)
      ensures !t.Started? ==> win.loading == old(win.loading) && win.starters == old(win.starters)
    {
      match t
      case Defined =>
        r := Success(true);
      case Joined(c) =>
        if win.cycles[c] == Rejected {
          r := Failure(LoadFailed);
        } else {
          r := Success(win.emulatorJsDefined);
        }
      case Started(c) =>
        win.starters := win.starters - {c};
        if win.cycles[c] == Rejected {
          r := Success(false);
        } else {
          r := Success(win.emulatorJsDefined);
        }
        if !win.emulatorJsDefined {
          win.loading := None;
        }
    }

    /** `loadROM(arrayBuffer)` after `ensureAssets` has settled. `runtime` is what
        `new EmulatorJS(…)` produces, `None` when the constructor throws. When the
        assets are not ready nothing on the page changes; otherwise the canvas is
        hidden and a `#game` element created, and neither is rolled back when a
        later step throws (no parent to append to, or the constructor). */
    method CompleteLoad(t: Ticket, runtime: Option<Runtime>) returns (r: Result<bool, string>)
      requires Valid()
      requires t.Defined? || (t.cycle < |win.cycles| && win.cycles[t.cycle] != Pending)
      requires t.Started? ==> t.cycle in win.starters
      modifies win`loading, win`starters, win`canvasShown, win`nextUid, win`nodes
      modifies this`emulatorDiv, this`emulatorInstance
      ensures Valid()
      ensures t.Started? ==>
        && win.starters == old(win.starters) - {t.cycle}
        && win.loading == (if win.emulatorJsDefined then old(win.loading) else None)
      ensures !t.Started? ==> win.loading == old(win.loading) && win.starters == old(win.starters)
      ensures !Ready(AssetsOutcome(t, win.cycles, win.emulatorJsDefined)) ==>
        && r == AssetsOutcome(t, win.cycles, win.emulatorJsDefined)
        && win.canvasShown == old(win.canvasShown) && win.nodes == old(win.nodes) && win.nextUid == old(win.nextUid)
        && emulatorDiv == old(emulatorDiv) && emulatorInstance == old(emulatorInstance)
      ensures Ready(AssetsOutcome(t, win.cycles, win.emulatorJsDefined)) ==>
        && r == Success(win.canvasHasParent && runtime.Some?)
        && !win.canvasShown
        && win.nextUid == old(win.nextUid) + 1 && emulatorDiv == Some(old(win.nextUid))
        && (!win.canvasHasParent ==> win.nodes == old(win.nodes) && emulatorInstance == old(emulatorInstance))
        && (win.canvasHasParent && runtime.None? ==>
              win.nodes == old(win.nodes) + [Node(old(win.nextUid), GameId, 0)] && emulatorInstance == old(emulatorInstance))
        && (win.canvasHasParent && runtime.Some? ==>
              && win.nodes == old(win.nodes) + [Node(old(win.nextUid), GameId, runtime.value.renders)]
              && emulatorInstance == Some(Instance(GameSelector, EmulatorOptions(win.env, system), runtime.value)))
    {
      var ready := FinishAssets(t);
      if ready.Failure? {
        return ready;
      }
      if !ready.value {
        return Success(false);
      }
      r := Mount(runtime);
    }

    /** The part of `loadROM` after the assets are ready: hide the canvas, create
        the `#game` element, append it, and start the runtime in it. */
    method Mount(runtime: Option<Runtime>) returns (r: Result<bool, string>)
      requires Valid()
      modifies win`canvasShown, win`nextUid, win`nodes, this`emulatorDiv, this`emulatorInstance
      ensures Valid()
      ensures r == Success(win.canvasHasParent && runtime.Some?)
      ensures !win.canvasShown
      ensures win.nextUid == old(win.nextUid) + 1 && emulatorDiv == Some(old(win.nextUid))
      ensures !win.canvasHasParent ==> win.nodes == old(win.nodes) && emulatorInstance == old(emulatorInstance)
      ensures win.canvasHasParent && runtime.None? ==>
        win.nodes == old(win.nodes) + [Node(old(win.nextUid), GameId, 0)] && emulatorInstance == old(emulatorInstance)
      ensures win.canvasHasParent && runtime.Some? ==>
        && win.nodes == old(win.nodes) + [Node(old(win.nextUid), GameId, runtime.value.renders)]
        && emulatorInstance == Some(Instance(GameSelector, EmulatorOptions(win.env, system), runtime.value))
    {
      win.canvasShown := false;
      var div := win.CreateElement();
      emulatorDiv := Some(div);
      if !win.canvasHasParent {
        return Success(false);
      }
      win.AppendChild(Node(div, GameId, 0));
      if runtime.None? {
        return Success(false);
      }
      emulatorInstance := Some(Instance(GameSelector, EmulatorOptions(win.env, system), runtime.value));
      win.FillLast(runtime.value.renders);
      r := Success(true);
    }

    /** `if (i.m) i.m()` on the mounted runtime; reports whether the call threw. */
    method Invoke(c: Capability) returns (threw: bool)
      requires emulatorInstance.Some?
      modifies this`invoked
      ensures var rt := emulatorInstance.value.runtime;
        && threw == (c in rt.caps && c in rt.throwing)
        && invoked == old(invoked) + (if c in rt.caps then [c] else [])
    {
      var rt := emulatorInstance.value.runtime;
      threw := c in rt.caps && c in rt.throwing;
      if c in rt.caps {
        invoked := invoked + [c];
      }
    }

    /** One statement `if (i.m) i.m()` of a `try` block, skipped once an earlier
        statement threw. `rest` is what the block still has to try, `m` first;
        `calls` is the trace the whole block leaves. */
    method TryCall(m: Capability, threw: bool, ghost rest: seq<Capability>, ghost calls: seq<Capability>)
      returns (threwNow: bool)
      requires emulatorInstance.Some? && rest != [] && rest[0] == m
      requires invoked + (if threw then [] else Invoked(rest, emulatorInstance.value.runtime)) == calls
      modifies this`invoked
      ensures invoked + (if threwNow then [] else Invoked(rest[1..], emulatorInstance.value.runtime)) == calls
    {
      threwNow := threw;
      if !threw {
        threwNow := Invoke(m);
        Unfold(rest, emulatorInstance.value.runtime);
      }
    }

    /** `pause()`: tries `pause` then `pauseGame`; an error is swallowed. */
    method Pause()
      modifies this`invoked
      ensures emulatorInstance.None? ==> invoked == old(invoked)
      ensures emulatorInstance.Some? ==> invoked == old(invoked) + Invoked(PauseCalls, emulatorInstance.value.runtime)
    {
      if emulatorInstance.Some? {
        ghost var calls := invoked + Invoked(PauseCalls, emulatorInstance.value.runtime);
        var threw := TryCall(Capability.Pause, false, PauseCalls, calls);
        threw := TryCall(PauseGame, threw, PauseCalls[1..], calls);
        assert PauseCalls[2..] == [];
      }
    }

    /** `reset()`: calls `reset` when the runtime has it. Nothing catches its
        error, so a throwing `reset` throws out of the wrapper. */
    method Reset() returns (threw: bool)
      modifies this`invoked
      ensures threw <==> emulatorInstance.Some? && Capability.Reset in emulatorInstance.value.runtime.caps
                          && Capability.Reset in emulatorInstance.value.runtime.throwing
      ensures emulatorInstance.None? ==> invoked == old(invoked)
      ensures emulatorInstance.Some? ==> (invoked == old(invoked) +
        (if Capability.Reset in emulatorInstance.value.runtime.caps then [Capability.Reset] else []))
    {
      threw := false;
      if emulatorInstance.Some? {
        threw := Invoke(Capability.Reset);
      }
    }

    /** The `try` block of `destroy()`: stop, pause, destroy, exit, each when
        the runtime has it, until one throws; then the runtime is dropped. */
    method StopRuntime()
      requires emulatorInstance.Some?
      modifies this`emulatorInstance, this`invoked
      ensures emulatorInstance.None?
      ensures invoked == old(invoked) + Invoked(TeardownCalls, old(emulatorInstance).value.runtime)
    {
      ghost var calls := invoked + Invoked(TeardownCalls, emulatorInstance.value.runtime);
      var threw := TryCall(Stop, false, TeardownCalls, calls);
      threw := TryCall(Capability.Pause, threw, TeardownCalls[1..], calls);
      threw := TryCall(Capability.Destroy, threw, TeardownCalls[2..], calls);
      threw := TryCall(Exit, threw, TeardownCalls[3..], calls);
      assert TeardownCalls[4..] == [];
      emulatorInstance := None;
    }

    /** Empties the element `emulatorDiv` child by child, then detaches it. */
    method RemoveDiv()
      requires win.Valid() && emulatorDiv.Some?
      modifies win`nodes, this`emulatorDiv
      ensures win.Valid() && emulatorDiv.None?
      ensures win.nodes == Detach(old(win.nodes), old(emulatorDiv).value)
    {
      var d := emulatorDiv.value;
      var at := Find(win.nodes, d);
      if at.Some? {
        var k := at.value;
        while win.nodes[k].children > 0
          invariant k < |win.nodes| && win.nodes[k].uid == d
          invariant win.NodesValid()
          invariant Detach(win.nodes, d) == Detach(old(win.nodes), d)
          decreases win.nodes[k].children
        {
          var emptier := win.nodes[k].(children := win.nodes[k].children - 1);
          DetachUpdated(win.nodes, d, k, emptier);
          win.nodes := win.nodes[k := emptier];
        }
      }
      DetachMembers(win.nodes, d);
      DetachUnique(win.nodes, d);
      win.nodes := Detach(win.nodes, d);
      emulatorDiv := None;
    }

    /** `destroy()`: stops the runtime (one `try` around all four calls), drops
        it, empties and detaches the `#game` element it created, removes every
        other `#game` element and shows the canvas. A second call changes
        nothing. */
    method Destroy()
      requires Valid()
      modifies win`nodes, win`canvasShown, this`emulatorDiv, this`emulatorInstance, this`invoked
      ensures Valid()
      ensures Destroyed()
      ensures win.nodes == Without(if old(emulatorDiv).Some? then Detach(old(win.nodes), old(emulatorDiv).value) else old(win.nodes), GameId)
      ensures old(emulatorInstance).None? ==> invoked == old(invoked)
      ensures old(emulatorInstance).Some? ==> invoked == old(invoked) + Invoked(TeardownCalls, old(emulatorInstance).value.runtime)
      ensures old(Destroyed()) ==> win.nodes == old(win.nodes) && invoked == old(invoked)
    {
      if emulatorInstance.Some? {
        StopRuntime();
      }
      if emulatorDiv.Some? {
        RemoveDiv();
      }
      ghost var before := win.nodes;
      win.RemoveAll(GameId);
      WithoutMembers(before, GameId);
      win.canvasShown := true;
      assert win.LoaderValid() && win.NodesValid();
      if old(Destroyed()) {
        WithoutAbsent(old(win.nodes), GameId);
      }
    }
  }
}
