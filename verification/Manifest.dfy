/**
 * pkg/kubemanifest and AssetBuilder.RemapImage of pkg/assets/builder.go: a recursive visitor that rewrites
 * the container images of a parsed manifest in place.
 */
module Manifest {
  import opened Prelude
  import opened Text

  // ----- pkg/assets/builder.go

  datatype ContainerAsset = ContainerAsset(dockerImage: string, canonicalLocation: string)

  /** strings.Replace(s, "/", "-", -1) */
  function Flatten(s: string): (r: string)
    ensures |r| == |s|
    ensures forall i :: 0 <= i < |s| ==> (s[i] == '/' ==> r[i] == '-') && (s[i] != '/' ==> r[i] == s[i])
  {
    if s == "" then "" else [if s[0] == '/' then '-' else s[0]] + Flatten(s[1..])
  }

  /** The image after the DNSCONTROLLER_IMAGE override, "" meaning not set. */
  function Overridden(override: string, image: string): string {
    if "kope/dns-controller:" <= image && override != "" then override else image
  }

  function Mirrored(mirror: string, image: string): string {
    mirror + "/" + Flatten(TrimPrefix(image, STANDARD_PREFIX))
  }

  /** The image to run. */
  function Remapped(registry: Option<string>, override: string, image: string): string {
    var overridden := Overridden(override, image);
    if registry.Some? then Mirrored(registry.value, overridden) else overridden
  }

  /** The asset recorded; without a mirror it names the image as it stood in the manifest, override or not. */
  function AssetFor(registry: Option<string>, override: string, image: string): ContainerAsset {
    if registry.Some? then
      ContainerAsset(Mirrored(registry.value, Overridden(override, image)), Overridden(override, image))
    else ContainerAsset(image, "")
  }

  const STANDARD_PREFIX := "gcr.io/google_containers/"

  /** The image under the mirror: without the standard prefix, if it has it, and with dashes for slashes. */
  ghost predicate IsMirrored(r: string, mirror: string, image: string) {
    var rest := if STANDARD_PREFIX <= image then image[|STANDARD_PREFIX|..] else image;
    && |r| == |mirror| + 1 + |rest|
    && r[..|mirror|] == mirror && r[|mirror|] == '/'
    && forall i :: 0 <= i < |rest| ==> r[|mirror| + 1 + i] == if rest[i] == '/' then '-' else rest[i]
  }

  /** What runs and what is recorded, for an image that is overridden or not. */
  lemma {:induction false} RemappedIs(registry: Option<string>, override: string, image: string)
    ensures var used := if "kope/dns-controller:" <= image && override != "" then override else image;
            var r, asset := Remapped(registry, override, image), AssetFor(registry, override, image);
            && (registry.None? ==> r == used && asset.dockerImage == image && asset.canonicalLocation == "")
            && (registry.Some? ==>
                  IsMirrored(r, registry.value, used) && asset.dockerImage == r && asset.canonicalLocation == used)
  {
    if registry.Some? {
      var used := Overridden(override, image);
      var flat := Flatten(TrimPrefix(used, STANDARD_PREFIX));
      var r := Remapped(registry, override, image);
      assert r == registry.value + "/" + flat;
      assert forall i :: 0 <= i < |flat| ==> r[|registry.value| + 1 + i] == flat[i];
    }
  }

  /** The same character, or a slash and a dash. */
  predicate Alike(c: char, d: char) { c == d || (c == '/' && d == '-') || (c == '-' && d == '/') }

  /** Two images share a place under the mirror exactly when, without the prefix, only slashes and dashes differ. */
  lemma {:induction false} MirrorCollidesIff(mirror: string, a: string, b: string)
    ensures Mirrored(mirror, a) == Mirrored(mirror, b) <==>
            var x, y := TrimPrefix(a, STANDARD_PREFIX), TrimPrefix(b, STANDARD_PREFIX);
            |x| == |y| && forall i :: 0 <= i < |x| ==> Alike(x[i], y[i])
  {
    var x, y := TrimPrefix(a, STANDARD_PREFIX), TrimPrefix(b, STANDARD_PREFIX);
    assert Mirrored(mirror, a)[|mirror| + 1..] == Flatten(x);
    assert Mirrored(mirror, b)[|mirror| + 1..] == Flatten(y);
    SameFlat(x, y);
  }

  lemma {:induction false} SameFlat(x: string, y: string)
    ensures Flatten(x) == Flatten(y) <==> |x| == |y| && forall i :: 0 <= i < |x| ==> Alike(x[i], y[i])
  {
    var u, v := Flatten(x), Flatten(y);
    if |x| == |y| {
      forall i | 0 <= i < |x| ensures u[i] == v[i] <==> Alike(x[i], y[i]) {
      }
    }
  }

  class AssetBuilder {
    var containerAssets: seq<ContainerAsset>
    const registry: Option<string>
    /** The environment variable DNSCONTROLLER_IMAGE. */
    const override: string

    constructor (registry: Option<string>, override: string)
      ensures containerAssets == [] && this.registry == registry && this.override == override
    {
      this.registry, this.override, containerAssets := registry, override, [];
    }

    method RemapImage(image: string) returns (r: string)
      modifies this
      ensures r == Remapped(registry, override, image)
      ensures containerAssets == old(containerAssets) + [AssetFor(registry, override, image)]
    {
      r := image;
      var dockerImage, canonicalLocation := image, "";
      if "kope/dns-controller:" <= r {
        if override != "" {
          r := override;
        }
      }
      if registry.Some? {
        var normalized := TrimPrefix(r, STANDARD_PREFIX);
        normalized := Flatten(normalized);
        dockerImage := registry.value + "/" + normalized;
        canonicalLocation := r;
        r := dockerImage;
      }
      containerAssets := containerAssets + [ContainerAsset(dockerImage, canonicalLocation)];
    }
  }

  // ----- Parsed manifests

  /** Maps and slices are references into a store, as in the source: two holders of one address share its content. */
  type Address = nat

  datatype Data = Str(s: string) | Bool(b: bool) | Float(text: string) | Nil | Map(m: Address) | Slice(s': Address)

  datatype Cell = Dict(entries: map<string, Data>) | List(items: seq<Data>)

  type Cells = map<Address, Cell>

  class Store {
    var cells: Cells

    constructor (cells: Cells)
      ensures this.cells == cells
    {
      this.cells := cells;
    }

    /** m[k] = v */
    method SetEntry(m: Address, k: string, v: Data)
      requires m in cells && cells[m].Dict?
      modifies this
      ensures cells == old(cells)[m := Dict(old(cells)[m].entries[k := v])]
    {
      cells := cells[m := Dict(cells[m].entries[k := v])];
    }

    /** s[i] = v */
    method SetItem(s: Address, i: nat, v: Data)
      requires s in cells && cells[s].List? && i < |cells[s].items|
      modifies this
      ensures cells == old(cells)[s := List(old(cells)[s].items[i := v])]
    {
      cells := cells[s := List(cells[s].items[i := v])];
    }
  }

  /** The tree a manifest forms, with the addresses that hold it. */
  datatype Tree = Leaf(v: Data) | Node(m: Address, children: map<string, Tree>) | Row(s': Address, kids: seq<Tree>)

  ghost function Footprint(t: Tree): set<Address> {
    match t
    case Leaf(_) => {}
    case Node(m, children) => {m} + set k, a | k in children && a in Footprint(children[k]) :: a
    case Row(s, kids) => {s} + set i, a | 0 <= i < |kids| && a in Footprint(kids[i]) :: a
  }

  /** No address is reached twice: what a decoder builds. */
  ghost predicate Separate(t: Tree) {
    match t
    case Leaf(v) => !v.Map? && !v.Slice?
    case Node(m, children) =>
      && (forall k :: k in children ==> Separate(children[k]) && m !in Footprint(children[k]))
      && (forall j, k :: j in children && k in children && j != k ==> Footprint(children[j]) !! Footprint(children[k]))
    case Row(s, kids) =>
      && (forall i :: 0 <= i < |kids| ==> Separate(kids[i]) && s !in Footprint(kids[i]))
      && (forall i, j :: 0 <= i < |kids| && 0 <= j < |kids| && i != j ==> Footprint(kids[i]) !! Footprint(kids[j]))
  }

  /** In this store, the data is this tree. */
  ghost predicate Holds(cells: Cells, data: Data, t: Tree)
    decreases t
  {
    match t
    case Leaf(v) => data == v
    case Node(m, children) =>
      && data == Map(m) && m in cells && cells[m].Dict? && cells[m].entries.Keys == children.Keys
      && forall k :: k in children ==> Holds(cells, cells[m].entries[k], children[k])
    case Row(s, kids) =>
      && data == Slice(s) && s in cells && cells[s].List? && |cells[s].items| == |kids|
      && forall i :: 0 <= i < |kids| ==> Holds(cells, cells[s].items[i], kids[i])
  }

  /** Only these addresses changed, and none came or went. */
  ghost predicate ChangedOnly(before: Cells, after: Cells, where: set<Address>) {
    before.Keys == after.Keys && forall a :: a in before && a !in where ==> before[a] == after[a]
  }

  /** What a data item is depends only on the cells of its tree. */
  lemma {:induction false} HoldsStill(before: Cells, after: Cells, where: set<Address>, data: Data, t: Tree)
    requires Holds(before, data, t) && ChangedOnly(before, after, where) && Footprint(t) !! where
    ensures Holds(after, data, t)
    decreases t
  {
    match t
    case Leaf(_) =>
    case Node(m, children) =>
      assert m in Footprint(t);
      forall k | k in children ensures Holds(after, after[m].entries[k], children[k]) {
        HoldsStill(before, after, where, before[m].entries[k], children[k]);
      }
    case Row(s, kids) =>
      assert s in Footprint(t);
      forall i | 0 <= i < |kids| ensures Holds(after, after[s].items[i], kids[i]) {
        HoldsStill(before, after, where, before[s].items[i], kids[i]);
      }
  }

  // ----- The pure rewriting

  /** fmt.Sprintf("[%d]", i) */
  function Position(i: nat): string { "[" + Itoa(i) + "]" }

  /** A field called image, three levels below one called containers. */
  predicate IsImage(path: seq<string>) {
    var n := |path|;
    n >= 3 && path[n - 1] == "image" && path[n - 3] == "containers"
  }

  /** The same objects in the same shape, with every image mapped and every other leaf as it was. */
  ghost function Remap(f: string -> string, t: Tree, path: seq<string>): Tree {
    match t
    case Leaf(v) => if v.Str? && IsImage(path) then Leaf(Str(f(v.s))) else t
    case Node(d, children) => Node(d, map k | k in children :: Remap(f, children[k], path + [k]))
    case Row(l, kids) => Row(l, seq(|kids|, i requires 0 <= i < |kids| => Remap(f, kids[i], path + [Position(i)])))
  }

  /** No leaf of a kind the visitor refuses. */
  ghost predicate Handled(t: Tree) {
    match t
    case Leaf(v) => !v.Nil?
    case Node(_, children) => forall k :: k in children ==> Handled(children[k])
    case Row(_, kids) => forall i :: 0 <= i < |kids| ==> Handled(kids[i])
  }

  /** What g makes of the images that are mapped, each as often as it occurs. */
  ghost function Images<A>(g: string -> A, t: Tree, path: seq<string>): multiset<A>
    decreases t, 1
  {
    match t
    case Leaf(v) => if v.Str? && IsImage(path) then multiset{g(v.s)} else multiset{}
    case Node(_, children) => ChildImages(g, t, path, children.Keys)
    case Row(_, kids) => KidImages(g, t, path, |kids|)
  }

  ghost function ChildImages<A>(g: string -> A, t: Tree, path: seq<string>, keys: set<string>): multiset<A>
    requires t.Node? && keys <= t.children.Keys
    decreases t, 0, keys
  {
    if keys == {} then multiset{}
    else
      var k :| k in keys;
      Images(g, t.children[k], path + [k]) + ChildImages(g, t, path, keys - {k})
  }

  ghost function KidImages<A>(g: string -> A, t: Tree, path: seq<string>, n: nat): multiset<A>
    requires t.Row? && n <= |t.kids|
    decreases t, 0, n
  {
    if n == 0 then multiset{} else KidImages(g, t, path, n - 1) + Images(g, t.kids[n - 1], path + [Position(n - 1)])
  }

  /** The order in which the children are counted does not matter. */
  lemma {:induction false} ChildImagesAny<A>(g: string -> A, t: Tree, path: seq<string>, keys: set<string>, k: string)
    requires t.Node? && keys <= t.children.Keys && k in keys
    ensures ChildImages(g, t, path, keys) == Images(g, t.children[k], path + [k]) + ChildImages(g, t, path, keys - {k})
    decreases keys
  {
    var j :| j in keys
             && ChildImages(g, t, path, keys)
                == Images(g, t.children[j], path + [j]) + ChildImages(g, t, path, keys - {j});
    if j != k {
      ChildImagesAny(g, t, path, keys - {j}, k);
      ChildImagesAny(g, t, path, keys - {k}, j);
      assert keys - {j} - {k} == keys - {k} - {j};
    }
  }

  lemma {:induction false} RemapKeepsFootprint(f: string -> string, t: Tree, path: seq<string>)
    ensures Footprint(Remap(f, t, path)) == Footprint(t)
  {
    match t
    case Leaf(_) =>
    case Node(d, children) =>
      forall k | k in children ensures Footprint(Remap(f, children[k], path + [k])) == Footprint(children[k]) {
        RemapKeepsFootprint(f, children[k], path + [k]);
      }
      var after := Remap(f, t, path).children;
      assert forall k :: k in children ==> Footprint(after[k]) == Footprint(children[k]);
    case Row(l, kids) =>
      forall i | 0 <= i < |kids| ensures Footprint(Remap(f, kids[i], path + [Position(i)])) == Footprint(kids[i]) {
        RemapKeepsFootprint(f, kids[i], path + [Position(i)]);
      }
      var after := Remap(f, t, path).kids;
      assert forall i :: 0 <= i < |kids| ==> Footprint(after[i]) == Footprint(kids[i]);
  }

  // ----- pkg/kubemanifest/visitor.go and images.go

  function Mapper(registry: Option<string>, override: string): string -> string {
    image => Remapped(registry, override, image)
  }

  function Recorder(registry: Option<string>, override: string): string -> ContainerAsset {
    image => AssetFor(registry, override, image)
  }

  /** What the slot holds after the mutator was called, or not. */
  function Mutated(data: Data, replacement: Option<string>): Data {
    if replacement.Some? then Str(replacement.value) else data
  }

  /** imageRemapVisitor.VisitString; a result of Some is a call of the mutator. */
  method VisitString(b: AssetBuilder, path: seq<string>, v: string) returns (replacement: Option<string>)
    modifies b
    ensures Mutated(Str(v), replacement) == if IsImage(path) then Str(Mapper(b.registry, b.override)(v)) else Str(v)
    ensures b.containerAssets
         == old(b.containerAssets) + if IsImage(path) then [Recorder(b.registry, b.override)(v)] else []
  {
    var n := |path|;
    if n < 1 || path[n - 1] != "image" {
      return None;
    }
    if n < 3 || path[n - 3] != "containers" {
      return None;
    }
    var remapped := b.RemapImage(v);
    if remapped != v {
      return Some(remapped);
    }
    return None;
  }

  ghost predicate Recorded(b: AssetBuilder, before: seq<ContainerAsset>, more: multiset<ContainerAsset>)
    reads b
  {
    multiset(b.containerAssets) == multiset(before) + more
  }

  /**
   * The recursive visit, in whatever order a map yields its keys. It succeeds exactly when no leaf is of a kind it
   * refuses; it then leaves the rewritten tree behind, at the same addresses, and one asset per mapped image.
   */
  method Visit(store: Store, b: AssetBuilder, data: Data, path: seq<string>, ghost t: Tree)
    returns (ok: bool, replacement: Option<string>)
    requires Holds(store.cells, data, t) && Separate(t)
    modifies store, b
    ensures ok <==> Handled(t)
    ensures ChangedOnly(old(store.cells), store.cells, Footprint(t))
    ensures ok ==> Holds(store.cells, Mutated(data, replacement), Remap(Mapper(b.registry, b.override), t, path))
    ensures ok ==> Recorded(b, old(b.containerAssets), Images(Recorder(b.registry, b.override), t, path))
    decreases t, 3
  {
    match data {
      case Str(v) =>
        replacement := VisitString(b, path, v);
        return true, replacement;
      case Bool(_) =>
        return true, None;
      case Float(_) =>
        return true, None;
      case Map(m) =>
        ok := VisitMap(store, b, m, path, t);
        return ok, None;
      case Slice(s) =>
        ok := VisitSlice(store, b, s, path, t);
        return ok, None;
      case Nil =>
        return false, None;
    }
  }

  lemma HoldsThrough(before: Cells, visited: Cells, after: Cells, where: set<Address>, a: Address, data: Data, t: Tree)
    requires Holds(before, data, t) && ChangedOnly(before, visited, where) && ChangedOnly(visited, after, {a})
    requires Footprint(t) !! where && a !in Footprint(t)
    ensures Holds(after, data, t)
  {
    HoldsStill(before, visited, where, data, t);
    HoldsStill(visited, after, {a}, data, t);
  }

  /** Child k of a map of which the keys in left are still to be visited. */
  ghost function Partly(f: string -> string, t: Tree, path: seq<string>, left: set<string>, k: string): Tree
    requires t.Node? && k in t.children
  {
    if k in left then t.children[k] else Remap(f, t.children[k], path + [k])
  }

  ghost predicate PartlyMapped(f: string -> string, cells: Cells, t: Tree, path: seq<string>, left: set<string>)
    requires t.Node?
  {
    && t.m in cells && cells[t.m].Dict? && cells[t.m].entries.Keys == t.children.Keys
    && forall k :: k in t.children ==> Holds(cells, cells[t.m].entries[k], Partly(f, t, path, left, k))
  }

  /** The child that was visited, once its holder at a has been updated. */
  lemma VisitedChild(f: string -> string, visited: Cells, after: Cells, a: Address, child: Tree, at: seq<string>,
                     v: Data)
    requires a !in Footprint(child)
    requires Holds(visited, v, Remap(f, child, at)) && ChangedOnly(visited, after, {a})
    ensures Holds(after, v, Remap(f, child, at))
  {
    RemapKeepsFootprint(f, child, at);
    HoldsStill(visited, after, {a}, v, Remap(f, child, at));
  }

  /** A sibling of it, visited before or not. */
  lemma OtherChild(f: string -> string, before: Cells, visited: Cells, after: Cells, where: set<Address>, a: Address,
                   child: Tree, at: seq<string>, done: bool, data: Data)
    requires a !in Footprint(child) && Footprint(child) !! where
    requires Holds(before, data, if done then Remap(f, child, at) else child)
    requires ChangedOnly(before, visited, where) && ChangedOnly(visited, after, {a})
    ensures Holds(after, data, if done then Remap(f, child, at) else child)
  {
    RemapKeepsFootprint(f, child, at);
    HoldsThrough(before, visited, after, where, a, data, if done then Remap(f, child, at) else child);
  }

  /** What separateness says of one child and its siblings. */
  ghost predicate Apart(t: Tree, k: string)
    requires t.Node? && k in t.children
  {
    && t.m !in Footprint(t.children[k])
    && forall j :: j in t.children && j != k ==>
         t.m !in Footprint(t.children[j]) && Footprint(t.children[j]) !! Footprint(t.children[k])
  }

  lemma ChildIsApart(t: Tree, k: string)
    requires t.Node? && k in t.children && Separate(t)
    ensures Apart(t, k) && t.m in Footprint(t) && Footprint(t.children[k]) <= Footprint(t)
  {
  }

  lemma ChildrenHold(f: string -> string, before: Cells, visited: Cells, t: Tree, path: seq<string>, left: set<string>,
                     k: string, v: Data)
    requires t.Node? && k in left && k in t.children && Apart(t, k) && PartlyMapped(f, before, t, path, left)
    requires ChangedOnly(before, visited, Footprint(t.children[k]))
    requires Holds(visited, v, Remap(f, t.children[k], path + [k]))
    ensures t.m in visited && visited[t.m] == before[t.m]
    ensures PartlyMapped(f, visited[t.m := Dict(visited[t.m].entries[k := v])], t, path, left - {k})
  {
    var after := visited[t.m := Dict(visited[t.m].entries[k := v])];
    forall j | j in t.children ensures Holds(after, after[t.m].entries[j], Partly(f, t, path, left - {k}, j)) {
      if j == k {
        VisitedChild(f, visited, after, t.m, t.children[k], path + [k], v);
      } else {
        OtherChild(f, before, visited, after, Footprint(t.children[k]), t.m, t.children[j], path + [j], j !in left,
                   before[t.m].entries[j]);
      }
    }
  }

  /** Visiting one child and storing its replacement leaves the others alone. */
  lemma MapStep(f: string -> string, before: Cells, visited: Cells, t: Tree, path: seq<string>, left: set<string>,
                k: string, v: Data)
    requires t.Node? && Separate(t) && k in left && k in t.children && PartlyMapped(f, before, t, path, left)
    requires ChangedOnly(before, visited, Footprint(t.children[k]))
    requires Holds(visited, v, Remap(f, t.children[k], path + [k]))
    ensures t.m in visited && visited[t.m] == before[t.m]
    ensures var after := visited[t.m := Dict(visited[t.m].entries[k := v])];
            PartlyMapped(f, after, t, path, left - {k}) && ChangedOnly(before, after, Footprint(t))
  {
    ChildIsApart(t, k);
    ChildrenHold(f, before, visited, t, path, left, k, v);
  }

  /** The body of the loop over a map. */
  method VisitEntry(store: Store, b: AssetBuilder, m: Address, k: string, path: seq<string>, ghost t: Tree,
                    ghost left: set<string>) returns (ok: bool)
    requires t.Node? && t.m == m && Separate(t) && k in left && left <= t.children.Keys
    requires PartlyMapped(Mapper(b.registry, b.override), store.cells, t, path, left)
    modifies store, b
    ensures ok <==> Handled(t.children[k])
    ensures ChangedOnly(old(store.cells), store.cells, Footprint(t))
    ensures ok ==> PartlyMapped(Mapper(b.registry, b.override), store.cells, t, path, left - {k})
    ensures ok ==> Recorded(b, old(b.containerAssets),
                            Images(Recorder(b.registry, b.override), t.children[k], path + [k]))
    decreases t, 0
  {
    ghost var f, before := Mapper(b.registry, b.override), store.cells;
    var data := store.cells[m].entries[k];
    var replacement;
    ok, replacement := Visit(store, b, data, path + [k], t.children[k]);
    assert Footprint(t.children[k]) <= Footprint(t);
    if ok {
      MapStep(f, before, store.cells, t, path, left, k, Mutated(data, replacement));
      if replacement.Some? {
        store.SetEntry(m, k, Str(replacement.value));
      } else {
        SameEntry(store.cells, m, k);
      }
    }
  }

  lemma SameEntry(cells: Cells, m: Address, k: string)
    requires m in cells && cells[m].Dict? && k in cells[m].entries
    ensures cells[m := Dict(cells[m].entries[k := cells[m].entries[k]])] == cells
  {
    assert cells[m].entries[k := cells[m].entries[k]] == cells[m].entries;
  }

  /** The loop over a map, in whatever order its keys come. */
  method VisitEntries(store: Store, b: AssetBuilder, m: Address, path: seq<string>, ghost t: Tree) returns (ok: bool)
    requires t.Node? && t.m == m && Separate(t)
    requires PartlyMapped(Mapper(b.registry, b.override), store.cells, t, path, t.children.Keys)
    modifies store, b
    ensures ok <==> forall k :: k in t.children ==> Handled(t.children[k])
    ensures ChangedOnly(old(store.cells), store.cells, Footprint(t))
    ensures ok ==> PartlyMapped(Mapper(b.registry, b.override), store.cells, t, path, {})
    ensures ok ==> Recorded(b, old(b.containerAssets),
                            ChildImages(Recorder(b.registry, b.override), t, path, t.children.Keys))
    decreases t, 1
  {
    ghost var f, g := Mapper(b.registry, b.override), Recorder(b.registry, b.override);
    var left := store.cells[m].entries.Keys;
    assert t.children.Keys - left == {};
    while left != {}
      invariant left <= t.children.Keys && PartlyMapped(f, store.cells, t, path, left)
      invariant ChangedOnly(old(store.cells), store.cells, Footprint(t))
      invariant forall k :: k in t.children && k !in left ==> Handled(t.children[k])
      invariant Recorded(b, old(b.containerAssets), ChildImages(g, t, path, t.children.Keys - left))
    {
      var k :| k in left;
      ghost var recorded := b.containerAssets;
      var visited := VisitEntry(store, b, m, k, path, t, left);
      if !visited {
        return false;
      }
      EntryRecorded(g, t, path, left, k, old(b.containerAssets), recorded, b.containerAssets);
      left := left - {k};
    }
    assert t.children.Keys - left == t.children.Keys;
    return true;
  }

  method VisitMap(store: Store, b: AssetBuilder, m: Address, path: seq<string>, ghost t: Tree) returns (ok: bool)
    requires t.Node? && Holds(store.cells, Map(m), t) && Separate(t)
    modifies store, b
    ensures ok <==> Handled(t)
    ensures ChangedOnly(old(store.cells), store.cells, Footprint(t))
    ensures ok ==> Holds(store.cells, Map(m), Remap(Mapper(b.registry, b.override), t, path))
    ensures ok ==> Recorded(b, old(b.containerAssets), Images(Recorder(b.registry, b.override), t, path))
    decreases t, 2
  {
    MapBegins(Mapper(b.registry, b.override), store.cells, t, path);
    ok := VisitEntries(store, b, m, path, t);
    if ok {
      MapDone(Mapper(b.registry, b.override), store.cells, t, path);
    }
  }

  lemma MapDone(f: string -> string, cells: Cells, t: Tree, path: seq<string>)
    requires t.Node? && PartlyMapped(f, cells, t, path, {})
    ensures Holds(cells, Map(t.m), Remap(f, t, path))
  {
    forall k | k in t.children ensures Holds(cells, cells[t.m].entries[k], Remap(f, t.children[k], path + [k])) {
      assert Partly(f, t, path, {}, k) == Remap(f, t.children[k], path + [k]);
    }
  }

  lemma MapBegins(f: string -> string, cells: Cells, t: Tree, path: seq<string>)
    requires t.Node? && Holds(cells, Map(t.m), t)
    ensures PartlyMapped(f, cells, t, path, t.children.Keys)
  {
    forall k | k in t.children ensures Holds(cells, cells[t.m].entries[k], Partly(f, t, path, t.children.Keys, k)) {
      assert Partly(f, t, path, t.children.Keys, k) == t.children[k];
    }
  }

  lemma ChildImagesNext<A>(g: string -> A, t: Tree, path: seq<string>, left: set<string>, k: string)
    requires t.Node? && k in left && left <= t.children.Keys
    ensures ChildImages(g, t, path, t.children.Keys - (left - {k}))
         == ChildImages(g, t, path, t.children.Keys - left) + Images(g, t.children[k], path + [k])
  {
    var done := t.children.Keys - (left - {k});
    assert done - {k} == t.children.Keys - left;
    ChildImagesAny(g, t, path, done, k);
  }

  lemma EntryRecorded<A>(g: string -> A, t: Tree, path: seq<string>, left: set<string>, k: string,
                         start: seq<A>, before: seq<A>, after: seq<A>)
    requires t.Node? && k in left && left <= t.children.Keys
    requires multiset(before) == multiset(start) + ChildImages(g, t, path, t.children.Keys - left)
    requires multiset(after) == multiset(before) + Images(g, t.children[k], path + [k])
    ensures multiset(after) == multiset(start) + ChildImages(g, t, path, t.children.Keys - (left - {k}))
  {
    ChildImagesNext(g, t, path, left, k);
  }

  /** Kid i of a slice of which the first n have been visited. */
  ghost function PartlyRow(f: string -> string, t: Tree, path: seq<string>, n: nat, i: nat): Tree
    requires t.Row? && i < |t.kids|
  {
    if i >= n then t.kids[i] else Remap(f, t.kids[i], path + [Position(i)])
  }

  ghost predicate PartlySliced(f: string -> string, cells: Cells, t: Tree, path: seq<string>, n: nat)
    requires t.Row?
  {
    && t.s' in cells && cells[t.s'].List? && |cells[t.s'].items| == |t.kids|
    && forall i :: 0 <= i < |t.kids| ==> Holds(cells, cells[t.s'].items[i], PartlyRow(f, t, path, n, i))
  }

  /** What separateness says of one element and the others. */
  ghost predicate ApartIn(t: Tree, n: nat)
    requires t.Row? && n < |t.kids|
  {
    && t.s' !in Footprint(t.kids[n])
    && forall j :: 0 <= j < |t.kids| && j != n ==>
         t.s' !in Footprint(t.kids[j]) && Footprint(t.kids[j]) !! Footprint(t.kids[n])
  }

  lemma KidIsApart(t: Tree, n: nat)
    requires t.Row? && n < |t.kids| && Separate(t)
    ensures ApartIn(t, n) && t.s' in Footprint(t) && Footprint(t.kids[n]) <= Footprint(t)
  {
  }

  lemma KidsHold(f: string -> string, before: Cells, visited: Cells, t: Tree, path: seq<string>, n: nat, v: Data)
    requires t.Row? && n < |t.kids| && ApartIn(t, n) && PartlySliced(f, before, t, path, n)
    requires ChangedOnly(before, visited, Footprint(t.kids[n]))
    requires Holds(visited, v, Remap(f, t.kids[n], path + [Position(n)]))
    ensures t.s' in visited && visited[t.s'] == before[t.s']
    ensures PartlySliced(f, visited[t.s' := List(visited[t.s'].items[n := v])], t, path, n + 1)
  {
    var after := visited[t.s' := List(visited[t.s'].items[n := v])];
    forall j | 0 <= j < |t.kids| ensures Holds(after, after[t.s'].items[j], PartlyRow(f, t, path, n + 1, j)) {
      if j == n {
        VisitedChild(f, visited, after, t.s', t.kids[n], path + [Position(n)], v);
      } else {
        OtherChild(f, before, visited, after, Footprint(t.kids[n]), t.s', t.kids[j], path + [Position(j)], j < n,
                   before[t.s'].items[j]);
      }
    }
  }

  lemma SliceStep(f: string -> string, before: Cells, visited: Cells, t: Tree, path: seq<string>, n: nat, v: Data)
    requires t.Row? && Separate(t) && n < |t.kids| && PartlySliced(f, before, t, path, n)
    requires ChangedOnly(before, visited, Footprint(t.kids[n]))
    requires Holds(visited, v, Remap(f, t.kids[n], path + [Position(n)]))
    ensures t.s' in visited && visited[t.s'] == before[t.s']
    ensures var after := visited[t.s' := List(visited[t.s'].items[n := v])];
            PartlySliced(f, after, t, path, n + 1) && ChangedOnly(before, after, Footprint(t))
  {
    KidIsApart(t, n);
    KidsHold(f, before, visited, t, path, n, v);
  }

  /** The body of the loop over a slice. */
  method VisitItem(store: Store, b: AssetBuilder, s: Address, i: nat, path: seq<string>, ghost t: Tree)
    returns (ok: bool)
    requires t.Row? && t.s' == s && Separate(t) && i < |t.kids|
    requires PartlySliced(Mapper(b.registry, b.override), store.cells, t, path, i)
    modifies store, b
    ensures ok <==> Handled(t.kids[i])
    ensures ChangedOnly(old(store.cells), store.cells, Footprint(t))
    ensures ok ==> PartlySliced(Mapper(b.registry, b.override), store.cells, t, path, i + 1)
    ensures ok ==> Recorded(b, old(b.containerAssets),
                            Images(Recorder(b.registry, b.override), t.kids[i], path + [Position(i)]))
    decreases t, 0
  {
    ghost var f, before := Mapper(b.registry, b.override), store.cells;
    var data := store.cells[s].items[i];
    var replacement;
    ok, replacement := Visit(store, b, data, path + [Position(i)], t.kids[i]);
    assert Footprint(t.kids[i]) <= Footprint(t);
    if ok {
      SliceStep(f, before, store.cells, t, path, i, Mutated(data, replacement));
      if replacement.Some? {
        store.SetItem(s, i, Str(replacement.value));
      } else {
        SameItem(store.cells, s, i);
      }
    }
  }

  lemma SameItem(cells: Cells, s: Address, i: nat)
    requires s in cells && cells[s].List? && i < |cells[s].items|
    ensures cells[s := List(cells[s].items[i := cells[s].items[i]])] == cells
  {
    assert cells[s].items[i := cells[s].items[i]] == cells[s].items;
  }

  /** The loop over a slice. */
  method VisitItems(store: Store, b: AssetBuilder, s: Address, path: seq<string>, ghost t: Tree) returns (ok: bool)
    requires t.Row? && t.s' == s && Separate(t)
    requires PartlySliced(Mapper(b.registry, b.override), store.cells, t, path, 0)
    modifies store, b
    ensures ok <==> forall k :: 0 <= k < |t.kids| ==> Handled(t.kids[k])
    ensures ChangedOnly(old(store.cells), store.cells, Footprint(t))
    ensures ok ==> PartlySliced(Mapper(b.registry, b.override), store.cells, t, path, |t.kids|)
    ensures ok ==> Recorded(b, old(b.containerAssets), KidImages(Recorder(b.registry, b.override), t, path, |t.kids|))
    decreases t, 1
  {
    ghost var f, g := Mapper(b.registry, b.override), Recorder(b.registry, b.override);
    var n := |store.cells[s].items|;
    for i := 0 to n
      invariant PartlySliced(f, store.cells, t, path, i)
      invariant ChangedOnly(old(store.cells), store.cells, Footprint(t))
      invariant forall k :: 0 <= k < i ==> Handled(t.kids[k])
      invariant Recorded(b, old(b.containerAssets), KidImages(g, t, path, i))
    {
      ghost var recorded := b.containerAssets;
      var visited := VisitItem(store, b, s, i, path, t);
      if !visited {
        return false;
      }
      ItemRecorded(g, t, path, i, old(b.containerAssets), recorded, b.containerAssets);
    }
    return true;
  }

  lemma ItemRecorded<A>(g: string -> A, t: Tree, path: seq<string>, i: nat,
                        start: seq<A>, before: seq<A>, after: seq<A>)
    requires t.Row? && i < |t.kids|
    requires multiset(before) == multiset(start) + KidImages(g, t, path, i)
    requires multiset(after) == multiset(before) + Images(g, t.kids[i], path + [Position(i)])
    ensures multiset(after) == multiset(start) + KidImages(g, t, path, i + 1)
  {
  }

  method VisitSlice(store: Store, b: AssetBuilder, s: Address, path: seq<string>, ghost t: Tree) returns (ok: bool)
    requires t.Row? && Holds(store.cells, Slice(s), t) && Separate(t)
    modifies store, b
    ensures ok <==> Handled(t)
    ensures ChangedOnly(old(store.cells), store.cells, Footprint(t))
    ensures ok ==> Holds(store.cells, Slice(s), Remap(Mapper(b.registry, b.override), t, path))
    ensures ok ==> Recorded(b, old(b.containerAssets), Images(Recorder(b.registry, b.override), t, path))
    decreases t, 2
  {
    SliceBegins(Mapper(b.registry, b.override), store.cells, t, path);
    ok := VisitItems(store, b, s, path, t);
    if ok {
      SliceDone(Mapper(b.registry, b.override), store.cells, t, path);
    }
  }

  lemma SliceBegins(f: string -> string, cells: Cells, t: Tree, path: seq<string>)
    requires t.Row? && Holds(cells, Slice(t.s'), t)
    ensures PartlySliced(f, cells, t, path, 0)
  {
    forall i | 0 <= i < |t.kids| ensures Holds(cells, cells[t.s'].items[i], PartlyRow(f, t, path, 0, i)) {
      assert PartlyRow(f, t, path, 0, i) == t.kids[i];
    }
  }

  lemma SliceDone(f: string -> string, cells: Cells, t: Tree, path: seq<string>)
    requires t.Row? && PartlySliced(f, cells, t, path, |t.kids|)
    ensures Holds(cells, Slice(t.s'), Remap(f, t, path))
  {
    forall i | 0 <= i < |t.kids|
      ensures Holds(cells, cells[t.s'].items[i], Remap(f, t.kids[i], path + [Position(i)]))
    {
      assert PartlyRow(f, t, path, |t.kids|, i) == Remap(f, t.kids[i], path + [Position(i)]);
    }
  }

  /**
   * Manifest.RemapImages with AssetBuilder.RemapImage: on success the manifest's map holds the pure rewriting of its
   * tree, whatever the order of iteration.
   */
  method RemapImages(store: Store, b: AssetBuilder, m: Address, ghost t: Tree) returns (ok: bool)
    requires t.Node? && Holds(store.cells, Map(m), t) && Separate(t)
    modifies store, b
    ensures ok <==> Handled(t)
    ensures ChangedOnly(old(store.cells), store.cells, Footprint(t))
    ensures ok ==> Holds(store.cells, Map(m), Remap(Mapper(b.registry, b.override), t, []))
    ensures ok ==> Recorded(b, old(b.containerAssets), Images(Recorder(b.registry, b.override), t, []))
  {
    var replacement;
    ok, replacement := Visit(store, b, Map(m), [], t);
    assert ok ==> replacement.None?;
  }

  // ----- The rewriting, leaf by leaf

  /** One step down: into a map under a key, or into a slice at an index. */
  datatype Hop = Key(k: string) | At(i: nat)

  function Name(h: Hop): string {
    match h case Key(k) => k case At(i) => Position(i)
  }

  function Names(route: seq<Hop>): seq<string> {
    if route == [] then [] else [Name(route[0])] + Names(route[1..])
  }

  ghost function LeafAt(t: Tree, route: seq<Hop>): Option<Data>
    decreases t
  {
    match t
    case Leaf(v) => if route == [] then Some(v) else None
    case Node(_, children) =>
      if route != [] && route[0].Key? && route[0].k in children then LeafAt(children[route[0].k], route[1..]) else None
    case Row(_, kids) =>
      if route != [] && route[0].At? && route[0].i < |kids| then LeafAt(kids[route[0].i], route[1..]) else None
  }

  /** The path ends with containers, an index or a key, and image. */
  ghost predicate EndsInImage(path: seq<string>) {
    exists above, place :: path == above + ["containers", place, "image"]
  }

  lemma {:induction false} IsImageIff(path: seq<string>)
    ensures IsImage(path) <==> EndsInImage(path)
  {
    if IsImage(path) {
      var n := |path| - 3;
      assert path == path[..n] + ["containers", path[n + 1], "image"];
    }
  }

  ghost function MapLeaf(f: string -> string, v: Option<Data>, path: seq<string>): Option<Data> {
    if v.Some? && v.value.Str? && EndsInImage(path) then Some(Str(f(v.value.s))) else v
  }

  /** Wherever there was a leaf there is one, mapped if it is an image string and as it was if not; and nowhere else. */
  lemma {:induction false} RemapTouchesOnlyImages(f: string -> string, t: Tree, path: seq<string>, route: seq<Hop>)
    ensures LeafAt(Remap(f, t, path), route) == MapLeaf(f, LeafAt(t, route), path + Names(route))
    decreases t
  {
    if route == [] {
      assert path + Names(route) == path;
      IsImageIff(path);
    } else {
      var name := Name(route[0]);
      Assoc(path, [name], Names(route[1..]));
      if t.Node? && route[0].Key? && route[0].k in t.children {
        RemapTouchesOnlyImages(f, t.children[route[0].k], path + [name], route[1..]);
      } else if t.Row? && route[0].At? && route[0].i < |t.kids| {
        RemapTouchesOnlyImages(f, t.kids[route[0].i], path + [name], route[1..]);
      }
    }
  }

  lemma {:induction false} HandledHasNoNil(t: Tree, route: seq<Hop>)
    requires Handled(t)
    ensures LeafAt(t, route) != Some(Nil)
    decreases t
  {
    if t.Node? && route != [] && route[0].Key? && route[0].k in t.children {
      HandledHasNoNil(t.children[route[0].k], route[1..]);
    } else if t.Row? && route != [] && route[0].At? && route[0].i < |t.kids| {
      HandledHasNoNil(t.kids[route[0].i], route[1..]);
    }
  }

  lemma {:induction false} UnhandledHasNil(t: Tree) returns (route: seq<Hop>)
    requires !Handled(t)
    ensures LeafAt(t, route) == Some(Nil)
    decreases t
  {
    match t
    case Leaf(_) => route := [];
    case Node(_, children) =>
      var k :| k in children && !Handled(children[k]);
      var rest := UnhandledHasNil(children[k]);
      route := [Key(k)] + rest;
      assert route[1..] == rest;
    case Row(_, kids) =>
      var i :| 0 <= i < |kids| && !Handled(kids[i]);
      var rest := UnhandledHasNil(kids[i]);
      route := [At(i)] + rest;
      assert route[1..] == rest;
  }

  /** The visitor refuses exactly the manifests in which some value is missing. */
  lemma HandledIff(t: Tree)
    ensures Handled(t) <==> forall route :: LeafAt(t, route) != Some(Nil)
  {
    if Handled(t) {
      forall route ensures LeafAt(t, route) != Some(Nil) {
        HandledHasNoNil(t, route);
      }
    } else {
      var route := UnhandledHasNil(t);
    }
  }
}
