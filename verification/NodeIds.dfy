/** Content ids of a block: renumbered when it is saved, corrected by name when it is loaded. */
module NodeIds {
  const CONTENT_MAX: nat := 0xFFFF  // UINT16_MAX
  const UNASSIGNED: nat := 0xFFFF
  const CONTENT_UNKNOWN: nat := 125
  const CONTENT_IGNORE: nat := 127

  type Id = n: nat | n <= CONTENT_MAX

  datatype MapNode = MapNode(content: Id, param1: nat, param2: nat)

  /** IdIdMapping: an array with a list of what was assigned. */
  class IdIdMapping {
    const mapping: array<Id>
    var dirty: seq<Id>

    ghost predicate Valid()
      reads this, mapping
    {
      && mapping.Length == 0x10000
      && forall k :: 0 <= k <= CONTENT_MAX && mapping[k] != UNASSIGNED ==> k in dirty
    }

    ghost predicate Cleared()
      reads this, mapping
    {
      Valid() && forall k :: 0 <= k <= CONTENT_MAX ==> mapping[k] == UNASSIGNED
    }

    constructor ()
      ensures Cleared() && fresh(mapping) && dirty == []
    {
      mapping := new Id[CONTENT_MAX + 1](_ => UNASSIGNED);
      dirty := [];
    }

    function Get(k: Id): Id
      requires Valid()
      reads this, mapping
    {
      mapping[k]
    }

    method Set(k: Id, v: Id)
      requires Valid()
      modifies this, mapping
      ensures Valid() && mapping[..] == old(mapping[..])[k := v]
    {
      mapping[k] := v;
      dirty := dirty + [k];
    }

    /** clear: whatever was assigned is unassigned again. */
    method Clear()
      requires Valid()
      modifies this, mapping
      ensures Cleared() && dirty == []
    {
      for i := 0 to |dirty|
        invariant Valid() && dirty == old(dirty)
        invariant forall k :: 0 <= k <= CONTENT_MAX && mapping[k] != UNASSIGNED ==> k in dirty[i..]
      {
        assert dirty[i..] == [dirty[i]] + dirty[i + 1..];
        mapping[dirty[i]] := UNASSIGNED;
      }
      dirty := [];
    }
  }

  /** The node definitions: names of ids, ids of names and aliases, and the ids still to be given out. */
  class NodeDefs {
    var names: map<Id, string>
    var ids: map<string, Id>
    var unused: seq<Id>

    ghost predicate Valid()
      reads this
    {
      && 125 in names && 127 in names
      && (forall i :: 0 <= i < |unused| ==> unused[i] !in names)
      && (forall i, j :: 0 <= i < j < |unused| ==> unused[i] != unused[j])
    }

    /** get(id).name: ids that are not registered count as unknown. */
    function NameOf(id: Id): string
      requires Valid()
      reads this
    {
      if id in names then names[id] else names[CONTENT_UNKNOWN]
    }

    /** allocateUnknownNodeId: CONTENT_IGNORE when there is no id left. */
    method AllocateUnknown(name: string) returns (id: Id)
      requires Valid() && name !in ids
      modifies this
      ensures Valid()
      ensures old(unused) == [] ==> id == 127 && names == old(names) && ids == old(ids) && unused == []
      ensures old(unused) != [] ==>
                && id == old(unused)[0] && id !in old(names) && id != CONTENT_IGNORE
                && names == old(names)[id := name] && ids == old(ids)[name := id]
    {
      if unused == [] {
        return CONTENT_IGNORE;
      }
      id := unused[0];
      unused := unused[1..];
      names := names[id := name];
      ids := ids[name := id];
    }
  }

  /** Equal ids get equal numbers, and different ones different numbers. */
  ghost predicate Renumbered(a: seq<MapNode>, b: seq<MapNode>) {
    && |a| == |b|
    && (forall i :: 0 <= i < |a| ==> b[i].param1 == a[i].param1 && b[i].param2 == a[i].param2)
    && (forall i, j :: 0 <= i < |a| && 0 <= j < |a| ==> (b[i].content == b[j].content <==> a[i].content == a[j].content))
  }

  /** What the cache knows while the first `n` nodes have been renumbered. */
  ghost predicate Numbered(cache: seq<Id>, counter: nat, a: seq<MapNode>, b: seq<MapNode>, n: nat) {
    && |cache| == CONTENT_MAX + 1 && n <= |a| == |b|
    && (forall g :: 0 <= g <= CONTENT_MAX && cache[g] != UNASSIGNED ==> cache[g] < counter)
    && (forall g, h :: 0 <= g <= CONTENT_MAX && 0 <= h <= CONTENT_MAX && cache[g] != UNASSIGNED && cache[h] == cache[g] ==>
        g == h)
    && (forall i :: 0 <= i < n ==> b[i] == a[i].(content := cache[a[i].content]) && b[i].content != UNASSIGNED)
    && (forall i :: n <= i < |a| ==> b[i] == a[i])
  }

  lemma NumberedRenumbers(cache: seq<Id>, counter: nat, a: seq<MapNode>, b: seq<MapNode>)
    requires Numbered(cache, counter, a, b, |a|)
    ensures Renumbered(a, b)
  {
  }

  /** A new id takes the next number. */
  lemma NumberedMore(cache: seq<Id>, counter: nat, a: seq<MapNode>, b: seq<MapNode>, n: nat)
    requires Numbered(cache, counter, a, b, n) && n < |a| && counter < UNASSIGNED
    ensures var g := a[n].content;
            if cache[g] != UNASSIGNED then Numbered(cache, counter, a, b[n := b[n].(content := cache[g])], n + 1)
            else Numbered(cache[g := counter], counter + 1, a, b[n := b[n].(content := counter)], n + 1)
  {
  }

  /** The names of all numbers given out, by the ids they stand for. */
  ghost predicate Named(cache: seq<Id>, counter: nat, names: map<Id, string>, defs: map<Id, string>) {
    && |cache| == CONTENT_MAX + 1
    && (forall k :: k in names <==> 0 <= k < counter)
    && forall g :: 0 <= g <= CONTENT_MAX && cache[g] != UNASSIGNED ==>
         cache[g] in names && CONTENT_UNKNOWN in defs && names[cache[g]] == if g in defs then defs[g] else defs[CONTENT_UNKNOWN]
  }

  /** getBlockNodeIdMapping: the ids become 0, 1, ... in the order in which they are met; the names go with them. */
  method GetBlockNodeIdMapping(mapping: IdIdMapping, nodes: array<MapNode>, defs: NodeDefs)
    returns (nimap: map<Id, string>, counter: nat)
    requires mapping.Valid() && defs.Valid() && nodes.Length == 4096
    modifies mapping, mapping.mapping, nodes
    ensures mapping.Valid() && Renumbered(old(nodes[..]), nodes[..])
    ensures counter <= 4096 && forall k :: k in nimap <==> 0 <= k < counter
    ensures forall i :: 0 <= i < nodes.Length ==>
              nodes[i].content in nimap && nimap[nodes[i].content] == defs.NameOf(old(nodes[i].content))
  {
    hide Numbered, Named;
    mapping.Clear();
    nimap, counter := map[], 0;
    ghost var a := nodes[..];
    Nothing(mapping.mapping[..], a, defs.names);
    for i := 0 to nodes.Length
      invariant mapping.Valid() && defs.Valid() && counter <= i
      invariant Numbered(mapping.mapping[..], counter, a, nodes[..], i) && Named(mapping.mapping[..], counter, nimap, defs.names)
      invariant nodes[..][i..] == a[i..]
    {
      ghost var b, cache := nodes[..], mapping.mapping[..];
      assert nodes[i] == nodes[..][i..][0] == a[i];
      var globalId := nodes[i].content;
      var id := CONTENT_IGNORE;
      var found := mapping.Get(globalId);
      NumberedMore(cache, counter, a, b, i);
      if found != UNASSIGNED {
        id := found;
      } else {
        id := counter;
        NamedMore(cache, counter, a, b, i, nimap, defs.names, globalId);
        counter := counter + 1;
        mapping.Set(globalId, id);
        nimap := nimap[id := defs.NameOf(globalId)];
      }
      nodes[i] := nodes[i].(content := id);
      assert nodes[..] == b[i := b[i].(content := id)];
      assert nodes[..][i + 1..] == b[i..][1..];
    }
    NumberedRenumbers(mapping.mapping[..], counter, a, nodes[..]);
    AllNamed(mapping.mapping[..], counter, a, nodes[..], nimap, defs.names);
  }

  lemma Nothing(cache: seq<Id>, a: seq<MapNode>, defs: map<Id, string>)
    requires |cache| == CONTENT_MAX + 1 && forall k :: 0 <= k <= CONTENT_MAX ==> cache[k] == UNASSIGNED
    ensures Numbered(cache, 0, a, a, 0) && Named(cache, 0, map[], defs)
  {
  }

  lemma NamedMore(cache: seq<Id>, counter: nat, a: seq<MapNode>, b: seq<MapNode>, n: nat,
                  names: map<Id, string>, defs: map<Id, string>, g: Id)
    requires Numbered(cache, counter, a, b, n) && Named(cache, counter, names, defs) && counter < UNASSIGNED
        && CONTENT_UNKNOWN in defs
    ensures Named(cache[g := counter], counter + 1, names[counter := if g in defs then defs[g] else defs[CONTENT_UNKNOWN]], defs)
  {
  }

  lemma AllNamed(cache: seq<Id>, counter: nat, a: seq<MapNode>, b: seq<MapNode>, names: map<Id, string>, defs: map<Id, string>)
    requires Numbered(cache, counter, a, b, |a|) && Named(cache, counter, names, defs) && CONTENT_UNKNOWN in defs
    ensures |a| == |b| && forall k :: k in names <==> 0 <= k < counter
    ensures forall i :: 0 <= i < |a| ==>
              b[i].content in names
                  && names[b[i].content] == if a[i].content in defs then defs[a[i].content] else defs[CONTENT_UNKNOWN]
  {
  }

  /** How a loaded node is corrected: by its name, where there is one and it has an id. */
  function Corrected(n: MapNode, nimap: map<Id, string>, ids: map<string, Id>): MapNode {
    if n.content in nimap && nimap[n.content] in ids then n.(content := ids[nimap[n.content]]) else n
  }

  /** The first `n` nodes are corrected, for good; the cache knows nothing wrong. */
  ghost predicate CorrectedUpTo(cache: seq<Id>, nimap: map<Id, string>, ids: map<string, Id>, full: bool,
                                a: seq<MapNode>, b: seq<MapNode>, n: nat) {
    && |cache| == CONTENT_MAX + 1 && n <= |a| == |b|
    && (forall k :: 0 <= k <= CONTENT_MAX && cache[k] != UNASSIGNED ==>
          k in nimap && nimap[k] in ids && cache[k] == ids[nimap[k]])
    && (forall i :: 0 <= i < n ==>
          b[i] == Corrected(a[i], nimap, ids) && (a[i].content in nimap && nimap[a[i].content] !in ids ==> full))
    && (forall i :: n <= i < |a| ==> b[i] == a[i])
  }

  lemma NothingCorrected(cache: seq<Id>, nimap: map<Id, string>, ids: map<string, Id>, full: bool, a: seq<MapNode>)
    requires |cache| == CONTENT_MAX + 1 && forall k :: 0 <= k <= CONTENT_MAX ==> cache[k] == UNASSIGNED
    ensures CorrectedUpTo(cache, nimap, ids, full, a, a, 0)
  {
  }

  /** A new name gets an id: what was corrected before stays so. */
  lemma NewName(cache: seq<Id>, nimap: map<Id, string>, ids: map<string, Id>, full: bool, a: seq<MapNode>, b: seq<MapNode>,
                n: nat, name: string, id: Id, full1: bool)
    requires CorrectedUpTo(cache, nimap, ids, full, a, b, n) && name !in ids && !full
    ensures CorrectedUpTo(cache, nimap, ids[name := id], full1, a, b, n)
  {
  }

  /** One more node. */
  lemma CorrectedMore(cache: seq<Id>, nimap: map<Id, string>, ids: map<string, Id>, full: bool, a: seq<MapNode>,
                      b: seq<MapNode>, n: nat)
    requires CorrectedUpTo(cache, nimap, ids, full, a, b, n) && n < |a|
    requires a[n].content in nimap && nimap[a[n].content] !in ids ==> full
    ensures var c := Corrected(a[n], nimap, ids);
            && CorrectedUpTo(cache, nimap, ids, full, a, b[n := c], n + 1)
            && (a[n].content in nimap && nimap[a[n].content] in ids ==>
                  CorrectedUpTo(cache[a[n].content := c.content], nimap, ids, full, a, b[n := c], n + 1))
    ensures cache[a[n].content] != UNASSIGNED ==> Corrected(a[n], nimap, ids) == a[n].(content := cache[a[n].content])
  {
  }

  /** What the cache answers at once. */
  lemma CacheKnows(cache: seq<Id>, nimap: map<Id, string>, ids: map<string, Id>, full: bool, a: seq<MapNode>,
                   b: seq<MapNode>, n: nat)
    requires CorrectedUpTo(cache, nimap, ids, full, a, b, n) && n < |a|
    ensures b[n] == a[n]
    ensures cache[a[n].content] != UNASSIGNED ==>
              a[n].content in nimap && nimap[a[n].content] in ids && cache[a[n].content] == ids[nimap[a[n].content]]
  {
  }

  /** One id corrected: by the cache, by its name, or not at all. */
  method CorrectId(cache: IdIdMapping, nimap: map<Id, string>, defs: NodeDefs, localId: Id, ghost a: seq<MapNode>,
                   ghost b: seq<MapNode>, ghost n: nat)
    returns (id: Id)
    requires cache.Valid() && defs.Valid() && n < |a| && localId == a[n].content
    requires CorrectedUpTo(cache.mapping[..], nimap, defs.ids, defs.unused == [], a, b, n)
    modifies cache, cache.mapping, defs
    ensures cache.Valid() && defs.Valid() && Grown(old(defs.names), old(defs.ids), defs.names, defs.ids)
    ensures a[n].(content := id) == Corrected(a[n], nimap, defs.ids)
    ensures localId in nimap && nimap[localId] in defs.ids ==> cache.mapping[localId] == id
    ensures CorrectedUpTo(cache.mapping[..], nimap, defs.ids, defs.unused == [], a, b[n := a[n].(content := id)], n + 1)
  {
    hide CorrectedUpTo;
    CacheKnows(cache.mapping[..], nimap, defs.ids, defs.unused == [], a, b, n);
    var found := cache.Get(localId);
    if found != UNASSIGNED {
      CorrectedMore(cache.mapping[..], nimap, defs.ids, defs.unused == [], a, b, n);
      return found;
    }
    if localId !in nimap {
      CorrectedMore(cache.mapping[..], nimap, defs.ids, defs.unused == [], a, b, n);
      return localId;
    }
    var name := nimap[localId];
    if name in defs.ids {
      id := defs.ids[name];
    } else {
      ghost var ids, full := defs.ids, defs.unused == [];
      id := defs.AllocateUnknown(name);
      if id == CONTENT_IGNORE {
        CorrectedMore(cache.mapping[..], nimap, defs.ids, defs.unused == [], a, b, n);
        return localId;
      }
      NewName(cache.mapping[..], nimap, ids, full, a, b, n, name, id, defs.unused == []);
    }
    CorrectedMore(cache.mapping[..], nimap, defs.ids, defs.unused == [], a, b, n);
    cache.Set(localId, id);
  }

  /** Definitions are only ever added. */
  ghost predicate Grown(names: map<Id, string>, ids: map<string, Id>, names1: map<Id, string>, ids1: map<string, Id>) {
    && (forall id :: id in names ==> id in names1 && names1[id] == names[id])
    && (forall name :: name in ids ==> name in ids1 && ids1[name] == ids[name])
    && (forall name :: name in ids1 && name !in ids ==> ids1[name] in names1 && names1[ids1[name]] == name)
  }

  /** correctBlockNodeIds. */
  method CorrectBlockNodeIds(cache: IdIdMapping, nimap: map<Id, string>, nodes: array<MapNode>, defs: NodeDefs)
    requires cache.Valid() && defs.Valid() && nodes.Length == 4096
    modifies cache, cache.mapping, nodes, defs
    ensures cache.Valid() && defs.Valid() && Grown(old(defs.names), old(defs.ids), defs.names, defs.ids)
    ensures forall i :: 0 <= i < nodes.Length ==> nodes[i] == Corrected(old(nodes[i]), nimap, defs.ids)
    // ids are missing at the end only if none was left
    ensures forall i :: 0 <= i < nodes.Length && old(nodes[i].content) in nimap && nimap[old(nodes[i].content)] !in defs.ids ==>
              defs.unused == []
  {
    hide CorrectedUpTo;
    cache.Clear();
    ghost var a, names0, ids0 := nodes[..], defs.names, defs.ids;
    NothingCorrected(cache.mapping[..], nimap, defs.ids, defs.unused == [], a);
    for i := 0 to nodes.Length
      invariant cache.Valid() && defs.Valid() && Grown(names0, ids0, defs.names, defs.ids)
      invariant CorrectedUpTo(cache.mapping[..], nimap, defs.ids, defs.unused == [], a, nodes[..], i)
    {
      ghost var b := nodes[..];
      CacheKnows(cache.mapping[..], nimap, defs.ids, defs.unused == [], a, b, i);
      assert nodes[i] == b[i];
      var id := CorrectId(cache, nimap, defs, nodes[i].content, a, b, i);
      nodes[i] := nodes[i].(content := id);
      assert nodes[..] == b[i := a[i].(content := id)];
    }
    AllCorrected(cache.mapping[..], nimap, defs.ids, defs.unused == [], a, nodes[..]);
  }

  lemma AllCorrected(cache: seq<Id>, nimap: map<Id, string>, ids: map<string, Id>, full: bool, a: seq<MapNode>, b: seq<MapNode>)
    requires CorrectedUpTo(cache, nimap, ids, full, a, b, |a|)
    ensures |a| == |b| && forall i :: 0 <= i < |a| ==>
              b[i] == Corrected(a[i], nimap, ids) && (a[i].content in nimap && nimap[a[i].content] !in ids ==> full)
  {
  }

  function NameIn(names: map<Id, string>, id: Id): string
    requires CONTENT_UNKNOWN in names
  {
    if id in names then names[id] else names[CONTENT_UNKNOWN]
  }

  /** `b` is what saving makes of `a` under the names `names`, together with the mapping `nimap`. */
  ghost predicate Saved(a: seq<MapNode>, b: seq<MapNode>, nimap: map<Id, string>, names: map<Id, string>) {
    && CONTENT_UNKNOWN in names && Renumbered(a, b)
    && forall i :: 0 <= i < |a| ==> b[i].content in nimap && nimap[b[i].content] == NameIn(names, a[i].content)
  }

  /** `c` is what loading makes of `b` with the ids known at its end. */
  ghost predicate Loaded(b: seq<MapNode>, c: seq<MapNode>, nimap: map<Id, string>, ids: map<string, Id>) {
    |b| == |c| && forall i :: 0 <= i < |b| ==> c[i] == Corrected(b[i], nimap, ids)
  }

  /** Every name leads to the id that carries it. */
  ghost predicate NoAliases(names: map<Id, string>, ids: map<string, Id>) {
    forall name :: name in ids ==> ids[name] in names && names[ids[name]] == name
  }

  /** Saving under one table and loading under another keeps the name of every node whose name got an id, and all else of it. */
  lemma NamesSurvive(a: seq<MapNode>, b: seq<MapNode>, c: seq<MapNode>, nimap: map<Id, string>,
                     names: map<Id, string>, names1: map<Id, string>, ids1: map<string, Id>, i: nat)
    requires Saved(a, b, nimap, names) && Loaded(b, c, nimap, ids1) && NoAliases(names1, ids1) && CONTENT_UNKNOWN in names1
    requires i < |a|
    ensures |c| == |a| && c[i].param1 == a[i].param1 && c[i].param2 == a[i].param2
    ensures NameIn(names, a[i].content) in ids1 ==> NameIn(names1, c[i].content) == NameIn(names, a[i].content)
  {
  }

  /** Under one and the same table, registered nodes come back as they were. */
  lemma SameTableIsIdentity(a: seq<MapNode>, b: seq<MapNode>, c: seq<MapNode>, nimap: map<Id, string>,
                            names: map<Id, string>, ids: map<string, Id>)
    requires Saved(a, b, nimap, names) && Loaded(b, c, nimap, ids)
    requires forall id :: id in names ==> names[id] in ids && ids[names[id]] == id
    requires forall i :: 0 <= i < |a| ==> a[i].content in names
    ensures c == a
  {
    forall i | 0 <= i < |a| ensures c[i] == a[i] {
      assert b[i].content in nimap && nimap[b[i].content] == names[a[i].content];
    }
  }

  /** Growing keeps a table free of aliases. */
  lemma GrownNoAliases(names: map<Id, string>, ids: map<string, Id>, names1: map<Id, string>, ids1: map<string, Id>)
    requires NoAliases(names, ids) && Grown(names, ids, names1, ids1)
    ensures NoAliases(names1, ids1)
  {
    forall name | name in ids1 ensures ids1[name] in names1 && names1[ids1[name]] == name {
      if name in ids {
        assert ids1[name] == ids[name];
      }
    }
  }

  /** A block is saved with the definitions `defs` and loaded with `other`, which may be the same. */
  method SaveAndLoad(mapping: IdIdMapping, nodes: array<MapNode>, defs: NodeDefs, other: NodeDefs)
    requires mapping.Valid() && defs.Valid() && other.Valid() && nodes.Length == 4096
    requires NoAliases(other.names, other.ids)
    modifies mapping, mapping.mapping, nodes, other
    ensures mapping.Valid() && other.Valid() && NoAliases(other.names, other.ids)
    ensures Grown(old(other.names), old(other.ids), other.names, other.ids)
    // every node keeps its name, and all else of it, unless its name is new and there is no id left for it
    ensures forall i :: 0 <= i < nodes.Length ==>
              Kept(old(defs.NameOf(nodes[i].content)), old(nodes[i]), nodes[i], other.names, other.ids, other.unused)
    // ids that both sides give to the same names come back
    ensures (forall id :: id in old(defs.names) ==>
               old(defs.names)[id] in old(other.ids) && old(other.ids)[old(defs.names)[id]] == id)
            && (forall i :: 0 <= i < nodes.Length ==> old(nodes[i].content) in old(defs.names))
            ==> nodes[..] == old(nodes[..])
  {
    hide Renumbered, Corrected, NoAliases;
    ghost var a, names := nodes[..], defs.names;
    var nimap, counter := GetBlockNodeIdMapping(mapping, nodes, defs);
    ghost var b := nodes[..];
    assert Saved(a, b, nimap, names);
    CorrectBlockNodeIds(mapping, nimap, nodes, other);
    ghost var c := nodes[..];
    assert Loaded(b, c, nimap, other.ids);
    GrownNoAliases(old(other.names), old(other.ids), other.names, other.ids);
    forall i | 0 <= i < nodes.Length
      ensures Kept(NameIn(names, a[i].content), a[i], c[i], other.names, other.ids, other.unused)
    {
      NamesSurvive(a, b, c, nimap, names, other.names, other.ids, i);
      assert nimap[b[i].content] == NameIn(names, a[i].content);
    }
    if (forall id :: id in names ==> names[id] in old(other.ids) && old(other.ids)[names[id]] == id)
       && (forall i :: 0 <= i < |a| ==> a[i].content in names) {
      SameTableIsIdentity(a, b, c, nimap, names, other.ids);
    }
  }

  /** The node still has its name, unless that got no id because none is left. */
  ghost predicate Kept(name: string, n: MapNode, n1: MapNode, names: map<Id, string>, ids: map<string, Id>, unused: seq<Id>) {
    && n1.param1 == n.param1 && n1.param2 == n.param2 && CONTENT_UNKNOWN in names
    && if name in ids then NameIn(names, n1.content) == name else unused == []
  }
}
