/** The part of the browser the two players touch, kept abstract: the elements
    in the canvas's container, the canvas's visibility, and the `<head>` tags
    and `window` globals that the EmulatorJS loader uses. */
module Dom {
  import opened Wrappers
  import opened Sequences

  /** An element in the canvas's container: its identity, its `id` attribute and
      how many children it has. */
  datatype Node = Node(uid: nat, id: string, children: nat)

  /** `document.querySelectorAll('#' + id)` then `.remove()` on each, as seen in
      the canvas's container: the container's elements without that id, in
      their order. */
  function Without(nodes: seq<Node>, id: string): (r: seq<Node>)
    ensures |r| <= |nodes|
  {
    Keep(nodes, (n: Node) => n.id != id)
  }

  /** Exactly the nodes with another id remain. */
  lemma WithoutMembers(nodes: seq<Node>, id: string)
    ensures forall n :: n in Without(nodes, id) <==> n in nodes && n.id != id
  {
    KeepMembers(nodes, (n: Node) => n.id != id);
  }

  /** Removing the nodes with an id a second time removes nothing. */
  lemma WithoutIdempotent(nodes: seq<Node>, id: string)
    ensures Without(Without(nodes, id), id) == Without(nodes, id)
  {
    WithoutMembers(nodes, id);
    KeepAll(Without(nodes, id), (n: Node) => n.id != id);
  }

  /** Removing an id no node carries changes nothing. */
  lemma WithoutAbsent(nodes: seq<Node>, id: string)
    requires forall k :: 0 <= k < |nodes| ==> nodes[k].id != id
    ensures Without(nodes, id) == nodes
  {
    KeepAll(nodes, (n: Node) => n.id != id);
  }

  /** The removal loop visits one more node: it stays exactly when it lacks the id. */
  lemma WithoutSnoc(nodes: seq<Node>, n: Node, id: string)
    ensures Without(nodes + [n], id) == Without(nodes, id) + (if n.id != id then [n] else [])
  {
    KeepConcat(nodes, [n], (m: Node) => m.id != id);
    assert [n][1..] == [];
  }

  /** No two elements share an identity. */
  ghost predicate UniqueUids(nodes: seq<Node>) {
    forall i, j :: 0 <= i < j < |nodes| ==> nodes[i].uid != nodes[j].uid
  }

  /** Appending a detached element keeps the identities distinct. */
  lemma AppendUnique(nodes: seq<Node>, n: Node)
    requires UniqueUids(nodes)
    requires forall m :: m in nodes ==> m.uid != n.uid
    ensures UniqueUids(nodes + [n])
  {
    var r := nodes + [n];
    forall i, j | 0 <= i < j < |r| ensures r[i].uid != r[j].uid {
      if j == |nodes| {
        assert r[i] in nodes;
      }
    }
  }

  /** Changing an element's contents in place keeps the identities distinct. */
  lemma UpdateUnique(nodes: seq<Node>, k: nat, n: Node)
    requires UniqueUids(nodes)
    requires k < |nodes| && nodes[k].uid == n.uid
    ensures UniqueUids(nodes[k := n])
  {
  }

  /** Filtering the container keeps the identities distinct. */
  lemma {:induction false} KeepUnique(nodes: seq<Node>, p: Node -> bool)
    requires UniqueUids(nodes)
    ensures UniqueUids(Keep(nodes, p))
  {
    if nodes != [] {
      var t := Keep(nodes[1..], p);
      KeepUnique(nodes[1..], p);
      KeepMembers(nodes[1..], p);
      var r := Keep(nodes, p);
      if p(nodes[0]) {
        assert r == [nodes[0]] + t;
        forall j | 1 <= j < |r| ensures r[0].uid != r[j].uid {
          assert r[j] == t[j - 1] && t[j - 1] in nodes[1..];
          var m :| 0 <= m < |nodes| - 1 && nodes[1..][m] == t[j - 1];
          assert nodes[m + 1] == r[j];
        }
      }
    }
  }

  /** Removing by id keeps the identities distinct. */
  lemma WithoutUnique(nodes: seq<Node>, id: string)
    requires UniqueUids(nodes)
    ensures UniqueUids(Without(nodes, id))
  {
    KeepUnique(nodes, (n: Node) => n.id != id);
  }

  /** Detaching keeps the identities distinct. */
  lemma DetachUnique(nodes: seq<Node>, uid: nat)
    requires UniqueUids(nodes)
    ensures UniqueUids(Detach(nodes, uid))
  {
    KeepUnique(nodes, (n: Node) => n.uid != uid);
  }

  /** Where the element `uid` sits in the container, if it is attached. */
  function Find(nodes: seq<Node>, uid: nat): (r: Option<nat>)
    ensures r.Some? ==> r.value < |nodes| && nodes[r.value].uid == uid
    ensures r.None? ==> forall n :: n in nodes ==> n.uid != uid
  {
    if nodes == [] then None
    else if nodes[0].uid == uid then Some(0)
    else match Find(nodes[1..], uid)
      case Some(k) => Some(k + 1)
      case None => None
  }

  /** `element.remove()` on the element `uid`: the container without it. */
  function Detach(nodes: seq<Node>, uid: nat): (r: seq<Node>)
    ensures |r| <= |nodes|
  {
    Keep(nodes, (n: Node) => n.uid != uid)
  }

  /** Exactly the other elements remain. */
  lemma DetachMembers(nodes: seq<Node>, uid: nat)
    ensures forall n :: n in Detach(nodes, uid) <==> n in nodes && n.uid != uid
  {
    KeepMembers(nodes, (n: Node) => n.uid != uid);
  }

  /** Changing the element `uid` before detaching it makes no difference. */
  lemma DetachUpdated(nodes: seq<Node>, uid: nat, k: nat, n: Node)
    requires k < |nodes| && nodes[k].uid == uid && n.uid == uid
    ensures Detach(nodes[k := n], uid) == Detach(nodes, uid)
  {
    KeepUpdate(nodes, k, n, (m: Node) => m.uid != uid);
  }

  /** How a loading promise has settled. */
  datatype Settlement = Pending | Fulfilled | Rejected

  class Window {
    /** The build's `BASE_URL` setting. */
    const env: Option<string>
    /** Whether the canvas has a parent element to append to. */
    const canvasHasParent: bool

    /** `typeof window.EmulatorJS !== 'undefined'` */
    var emulatorJsDefined: bool
    /** `window.__emulatorjsLoading`: the loading cycle whose promise it holds. */
    var loading: Option<nat>
    /** The promise of every loading cycle started so far, by cycle number. */
    var cycles: seq<Settlement>
    /** The cycles whose starting `ensureAssets` call has not resumed yet. */
    ghost var starters: set<nat>
    /** The `href`s of the `link[data-emulatorjs]` stylesheets in `<head>`. */
    var stylesheets: seq<string>
    /** The `src`s of the `script[data-emulatorjs]` tags in `<head>`. */
    var scripts: seq<string>

    /** The elements in the canvas's container, in document order. */
    var nodes: seq<Node>
    /** The identity the next created element gets. */
    var nextUid: nat
    /** Whether the canvas is displayed. */
    var canvasShown: bool

    ghost predicate Valid()
      reads this
    {
      LoaderValid() && NodesValid()
    }

    /** Single flight: a pending promise belongs to a call that has not resumed,
        and that call's cycle is the one the marker holds. */
    ghost predicate LoaderValid()
      reads this`loading, this`cycles, this`starters, this`scripts, this`stylesheets, this`emulatorJsDefined
    {
      && (loading.Some? ==> loading.value < |cycles|)
      && |scripts| == |cycles|
      && |stylesheets| == (if |cycles| == 0 then 0 else 1)
      && (forall c :: 0 <= c < |cycles| && cycles[c] == Pending ==> c in starters)
      && (forall c :: c in starters ==> loading == Some(c))
      && (loading.Some? && !emulatorJsDefined ==> loading.value in starters)
    }

    /** Every element in the container was created earlier, and each is in it
        once: `element.remove()` (Detach) takes out exactly one element. */
    ghost predicate NodesValid()
      reads this`nodes, this`nextUid
    {
      (forall n :: n in nodes ==> n.uid < nextUid) && UniqueUids(nodes)
    }

    /** A page with nothing loaded yet and an empty, visible canvas. */
    constructor (env: Option<string>, canvasHasParent: bool)
      ensures Valid()
      ensures this.env == env && this.canvasHasParent == canvasHasParent
      ensures !emulatorJsDefined && loading.None? && cycles == []
      ensures stylesheets == [] && scripts == [] && nodes == [] && canvasShown
    {
      this.env := env;
      this.canvasHasParent := canvasHasParent;
      emulatorJsDefined := false;
      loading := None;
      cycles := [];
      starters := {};
      stylesheets := [];
      scripts := [];
      nodes := [];
      nextUid := 0;
      canvasShown := true;
    }

    /** At most one loading cycle is in flight. */
    lemma SingleFlight(c: nat, d: nat)
      requires Valid()
      requires c < |cycles| && d < |cycles| && cycles[c] == Pending && cycles[d] == Pending
      ensures c == d
    {
      assert c in starters && d in starters;
    }

    /** `document.createElement(...)`: a new, detached element identity. */
    method CreateElement() returns (uid: nat)
      requires Valid()
      modifies this`nextUid
      ensures Valid()
      ensures uid == old(nextUid) && nextUid == uid + 1
    {
      uid := nextUid;
      nextUid := nextUid + 1;
    }

    /** `parent.appendChild(el)` for a created element that is not attached. */
    method AppendChild(n: Node)
      requires Valid()
      requires n.uid < nextUid && forall m :: m in nodes ==> m.uid != n.uid
      modifies this`nodes
      ensures Valid()
      ensures nodes == old(nodes) + [n]
    {
      AppendUnique(nodes, n);
      nodes := nodes + [n];
    }

    /** Code that renders into the element appended last gives it `children` children. */
    method FillLast(children: nat)
      requires Valid() && nodes != []
      modifies this`nodes
      ensures Valid()
      ensures nodes == old(nodes)[|old(nodes)| - 1 := old(nodes)[|old(nodes)| - 1].(children := children)]
    {
      var k := |nodes| - 1;
      UpdateUnique(nodes, k, nodes[k].(children := children));
      nodes := nodes[k := nodes[k].(children := children)];
    }

    /** The removal loop of `querySelectorAll('#' + id).forEach(d => d.remove())`. */
    method RemoveAll(id: string)
      requires Valid()
      modifies this`nodes
      ensures Valid()
      ensures nodes == Without(old(nodes), id)
    {
      var ns := nodes;
      var kept := [];
      var i := 0;
      while i < |ns|
        invariant 0 <= i <= |ns|
        invariant kept == Without(ns[..i], id)
      {
        WithoutSnoc(ns[..i], ns[i], id);
        assert ns[..i + 1] == ns[..i] + [ns[i]];
        if ns[i].id != id {
          kept := kept + [ns[i]];
        }
        i := i + 1;
      }
      assert ns[..i] == ns;
      WithoutMembers(ns, id);
      WithoutUnique(ns, id);
      nodes := kept;
    }

    /** The executor of a new loading promise: the stylesheet tag goes in when
        there is none, a script tag goes in, and the marker holds the new cycle. */
    method StartLoad(script: string, stylesheet: string) returns (c: nat)
      requires Valid() && loading.None?
      modifies this`loading, this`cycles, this`starters, this`stylesheets, this`scripts
      ensures Valid()
      ensures c == |old(cycles)| && cycles == old(cycles) + [Pending]
      ensures loading == Some(c) && starters == {c}
      ensures scripts == old(scripts) + [script]
      ensures stylesheets == (if old(stylesheets) == [] then [stylesheet] else old(stylesheets))
    {
      c := |cycles|;
      cycles := cycles + [Pending];
      loading := Some(c);
      starters := {c};
      if stylesheets == [] {
        stylesheets := [stylesheet];
      }
      scripts := scripts + [script];
    }

    /** The script tag of cycle `c` fires `load` (`loaded`) or `error`; a load may
        or may not define `EmulatorJS`. A promise settles only once. */
    method SettleScript(c: nat, loaded: bool, defines: bool)
      requires Valid() && c < |cycles|
      modifies this`cycles, this`emulatorJsDefined
      ensures Valid()
      ensures old(cycles[c]) != Pending ==> cycles == old(cycles) && emulatorJsDefined == old(emulatorJsDefined)
      ensures old(cycles[c]) == Pending ==>
        && cycles == old(cycles)[c := if loaded then Fulfilled else Rejected]
        && emulatorJsDefined == (old(emulatorJsDefined) || (loaded && defines))
    {
      if cycles[c] == Pending {
        if loaded {
          cycles := cycles[c := Fulfilled];
          emulatorJsDefined := emulatorJsDefined || defines;
        } else {
          cycles := cycles[c := Rejected];
        }
      }
    }
  }
}
