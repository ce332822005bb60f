/** The trie of reversed labels that finds matching domain patterns (common/strmatcher/domain_matcher.go). */
module DomainTrie {
  import opened Bytes
  import opened DomainLabels

  /** The reversed labels of a pattern and the id it was added under. */
  datatype Entry<P> = Entry(path: P, id: nat)

  type Path = seq<Label>

  /** The ids of the patterns with these labels, in the order of insertion. */
  function IdsAt<P(==)>(entries: seq<Entry<P>>, path: P): seq<nat> {
    if entries == [] then []
    else
      var e := entries[|entries| - 1];
      IdsAt(entries[..|entries| - 1], path) + if e.path == path then [e.id] else []
  }

  /** The ids found along the first k labels, the longest pattern first. */
  function ByDepth(entries: seq<Entry<Path>>, labels: Path, k: nat): seq<nat>
    requires k <= |labels|
  {
    if k == 0 then [] else IdsAt(entries, labels[..k]) + ByDepth(entries, labels, k - 1)
  }

  /** What Match returns. */
  function MatchSpec(entries: seq<Entry<Path>>, s: string): seq<nat> {
    if s == "" then [] else ByDepth(entries, Labels(s), |Labels(s)|)
  }

  lemma {:induction false} IdsAtAppend<P>(entries: seq<Entry<P>>, e: Entry<P>, path: P)
    ensures IdsAt(entries + [e], path) == if e.path == path then IdsAt(entries, path) + [e.id] else IdsAt(entries, path)
  {
    assert (entries + [e])[..|entries|] == entries;
  }

  lemma {:induction false} NoIdsAt<P>(entries: seq<Entry<P>>, path: P)
    requires forall i :: 0 <= i < |entries| ==> entries[i].path != path
    ensures IdsAt(entries, path) == []
  {
    if entries != [] {
      NoIdsAt(entries[..|entries| - 1], path);
    }
  }

  function Child(path: Path, part: Label): Path { path + [part] }

  class Node {
    ghost const path: Path
    var values: seq<nat>
    var sub: map<Label, Node>

    constructor (ghost path: Path)
      ensures values == [] && sub == map[] && this.path == path
    {
      this.path := path;
      values, sub := [], map[];
    }
  }

  /** The paths form a tree rooted in the empty path, with one node each. */
  ghost predicate Paths(root: Node?, nodes: map<Path, Node>) {
    && (root == null <==> nodes == map[])
    && (root != null ==> [] in nodes && nodes[[]] == root)
    && (forall p, x {:trigger Child(p, x)} :: Child(p, x) in nodes ==> p in nodes)
    && (forall p :: p in nodes ==> nodes[p].path == p)
  }

  lemma PathsGrow(root: Node?, nodes: map<Path, Node>, p: Path, part: Label, next: Node)
    requires Paths(root, nodes) && p in nodes && Child(p, part) !in nodes && next.path == Child(p, part)
    ensures Paths(root, nodes[Child(p, part) := next])
  {
    forall q, x
      ensures Child(q, x) == Child(p, part) ==> q == p
    {
      ChildInjective(q, x, p, part);
    }
  }

  /** A node's map leads exactly to the nodes one label below. */
  ghost predicate Linked(sub: map<Label, Node>, p: Path, nodes: map<Path, Node>) {
    forall part {:trigger Child(p, part)} ::
      if part in sub then Child(p, part) in nodes && sub[part] == nodes[Child(p, part)]
      else Child(p, part) !in nodes
  }

  lemma LinkedParent(sub: map<Label, Node>, p: Path, nodes: map<Path, Node>, part: Label, next: Node)
    requires Linked(sub, p, nodes) && part !in sub
    ensures Linked(sub[part := next], p, nodes[Child(p, part) := next])
  {
    forall x
      ensures Child(p, x) == Child(p, part) <==> x == part
    {
      ChildInjective(p, x, p, part);
    }
  }

  lemma LinkedOther(sub: map<Label, Node>, r: Path, nodes: map<Path, Node>, p: Path, part: Label, next: Node)
    requires Linked(sub, r, nodes) && r != p
    ensures Linked(sub, r, nodes[Child(p, part) := next])
  {
    forall x
      ensures Child(r, x) != Child(p, part)
    {
      ChildInjective(r, x, p, part);
    }
  }

  lemma LinkedLeaf(root: Node?, nodes: map<Path, Node>, q: Path, next: Node)
    requires Paths(root, nodes) && q !in nodes
    ensures Linked(map[], q, nodes[q := next])
  {
    forall x
      ensures Child(q, x) !in nodes[q := next]
    {
      NothingBelow(root, nodes, q, x);
      assert |Child(q, x)| == |q| + 1;
    }
  }

  lemma NothingBelow(root: Node?, nodes: map<Path, Node>, q: Path, x: Label)
    requires Paths(root, nodes) && q !in nodes
    ensures Child(q, x) !in nodes
  {
  }

  /** The nodes hold what the maps say. */
  ghost predicate Mirrored<P(!new)>(repr: set<Node>, nodes: map<P, Node>, subs: map<P, map<Label, Node>>,
                                    values: map<P, seq<nat>>)
    reads repr
  {
    && subs.Keys == nodes.Keys && values.Keys == nodes.Keys
    && forall p :: p in nodes ==> Holds(repr, nodes[p], subs[p], values[p])
  }

  ghost predicate Holds(repr: set<Node>, n: Node, sub: map<Label, Node>, ids: seq<nat>)
    reads repr
  {
    n in repr && n.sub == sub && n.values == ids
  }

  /** The same but for the node at p. */
  ghost predicate MirroredBut<P(!new)>(repr: set<Node>, nodes: map<P, Node>, subs: map<P, map<Label, Node>>,
                                       values: map<P, seq<nat>>, p: P)
    reads repr
  {
    && subs.Keys == nodes.Keys && values.Keys == nodes.Keys && p in nodes && nodes[p] in repr
    && forall r :: r in nodes && r != p ==> Holds(repr, nodes[r], subs[r], values[r])
  }

  lemma AttachKeeps<P(!new)>(repr: set<Node>, nodes: map<P, Node>, subs: map<P, map<Label, Node>>,
                             values: map<P, seq<nat>>,
                             p: P, q: P, next: Node)
    requires MirroredBut(repr, nodes, subs, values, p) && nodes[p].values == values[p] && q !in nodes
    requires next.sub == map[] && next.values == []
    ensures Mirrored(repr + {next}, nodes[q := next], subs[p := nodes[p].sub][q := map[]], values[q := []])
  {
    forall r | r in nodes
      ensures Holds(repr + {next}, nodes[r], subs[p := nodes[p].sub][r], values[r])
    {
      assert r != p ==> Holds(repr, nodes[r], subs[r], values[r]);
    }
  }

  lemma PutKeeps<P(!new)>(repr: set<Node>, nodes: map<P, Node>, subs: map<P, map<Label, Node>>,
                          values: map<P, seq<nat>>, p: P)
    requires MirroredBut(repr, nodes, subs, values, p) && nodes[p].sub == subs[p]
    ensures Mirrored(repr, nodes, subs, values[p := nodes[p].values])
  {
  }

  class DomainMatcherGroup {
    var root: Node?
    // The node of every label path with what it holds, and everything added so far.
    ghost var repr: set<Node>
    ghost var nodes: map<Path, Node>
    ghost var subs: map<Path, map<Label, Node>>
    ghost var values: map<Path, seq<nat>>
    ghost var entries: seq<Entry<Path>>

    constructor ()
      ensures Valid() && entries == [] && repr == {}
    {
      root, repr, nodes, subs, values, entries := null, {}, map[], map[], map[], [];
    }

    ghost predicate Valid()
      reads this, repr
    {
      && Mirrored(repr, nodes, subs, values) && Shape(root, nodes, subs)
      && Filled(values, entries) && (root == null ==> entries == [])
    }

    /** Hangs a new node below `current`. */
    method Attach(current: Node, part: Label, ghost p: Path, ghost q: Path) returns (next: Node)
      requires Mirrored(repr, nodes, subs, values) && p in nodes && nodes[p] == current && q !in nodes
      requires forall r :: r in nodes && r != p ==> nodes[r] != current
      modifies this`repr, this`nodes, this`subs, this`values, current`sub
      ensures Mirrored(repr, nodes, subs, values) && next.path == q && fresh(next) && repr == old(repr) + {next}
      ensures nodes == old(nodes)[q := next] && values == old(values)[q := []]
      ensures subs == old(subs)[p := old(subs)[p][part := next]][q := map[]]
    {
      ghost var ns, ss, vs, nodes0 := nodes, subs, values, repr;
      next := new Node(q);
      assert Holds(repr, current, ss[p], vs[p]);
      repr := repr + {next};
      nodes, subs, values := ns[q := next], ss[p := ss[p][part := next]][q := map[]], vs[q := []];
      current.sub := current.sub[part := next];
      forall r | r in ns && r != p
        ensures Holds(nodes0, ns[r], ss[r], vs[r])
      {
        assert old(Holds(repr, nodes[r], subs[r], values[r])) && ns[r] != current;
      }
      AttachKeeps(nodes0, ns, ss, vs, p, q, next);
    }

    /** Makes the missing node below `current`. */
    method Grow(current: Node, part: Label, ghost p: Path) returns (next: Node)
      requires Valid() && p in nodes && nodes[p] == current && part !in current.sub
      modifies this`repr, this`nodes, this`subs, this`values, current`sub
      ensures Valid() && Child(p, part) in nodes && nodes[Child(p, part)] == next
      ensures fresh(repr - old(repr)) && old(repr) <= repr
    {
      assert Holds(repr, current, subs[p], values[p]);
      MissingChild(root, nodes, subs, p, part);
      next := Attach(current, part, p, Child(p, part));
      ShapeGrow(root, old(nodes), old(subs), p, part, next);
      FilledGrow(old(values), entries, Child(p, part));
    }

    /** The trie stands at the first k labels of a path. */
    ghost predicate Standing(current: Node, path: Path, k: nat)
      reads this, repr
    {
      Valid() && k <= |path| && path[..k] in nodes && nodes[path[..k]] == current
    }

    /** The child for the next label, made if it is missing. */
    method Descend(current: Node, path: Path, k: nat) returns (next: Node)
      requires Standing(current, path, k) && k < |path|
      modifies this`repr, this`nodes, this`subs, this`values, current`sub
      ensures Standing(next, path, k + 1)
      ensures old(repr) <= repr && forall n :: n in repr ==> n in old(repr) || fresh(n)
    {
      var part := path[k];
      ghost var p := path[..k];
      ChildStep(path, k);
      assert Holds(repr, current, subs[p], values[p]);
      if part in current.sub {
        assert Linked(subs[p], p, nodes);
        next := current.sub[part];
      } else {
        next := Grow(current, part, p);
      }
    }

    /** The root, made on first use. */
    method EnsureRoot() returns (r: Node)
      requires Valid()
      modifies this`root, this`repr, this`nodes, this`subs, this`values
      ensures Valid() && r == root && [] in nodes && nodes[[]] == r
      ensures forall n :: n in repr ==> n in old(repr) || fresh(n)
    {
      if root == null {
        root := new Node([]);
        repr, nodes, subs, values := repr + {root}, map[[] := root], map[[] := map[]], map[[] := []];
        EmptyRoot(root);
      }
      r := root;
    }

    /** The node at the end of a path, with every node on the way made. */
    method Walk(path: Path) returns (current: Node)
      requires Valid()
      modifies this`root, this`nodes, this`subs, this`values, this`repr, repr
      ensures Valid() && path in nodes && nodes[path] == current
      ensures fresh(repr - old(repr))
    {
      current := EnsureRoot();
      var k := 0;
      while k < |path|
        invariant k <= |path| && Standing(current, path, k)
        invariant forall n :: n in repr ==> n in old(repr) || fresh(n)
      {
        current := Descend(current, path, k);
        k := k + 1;
      }
      assert path[..k] == path;
    }

    /** Add walks down the labels from the last to the first and appends the id where it ends. */
    method Add(domain: string, id: nat)
      requires Valid()
      modifies this, repr
      ensures Valid() && entries == old(entries) + [Entry(Labels(domain), id)]
      ensures fresh(repr - old(repr))
    {
      var current := Walk(Labels(domain));
      Put(current, Entry(Labels(domain), id));
    }

    /** The child for a label, if there is one. */
    method Find(current: Node, part: Label, ghost p: Path) returns (next: Node?)
      requires Valid() && p in nodes && nodes[p] == current
      ensures next == null <==> Child(p, part) !in nodes
      ensures next != null ==> nodes[Child(p, part)] == next && next.values == IdsAt(entries, Child(p, part))
    {
      assert Linked(subs[p], p, nodes) && Holds(repr, current, subs[p], values[p]);
      if part !in current.sub {
        return null;
      }
      next := current.sub[part];
      ghost var q := Child(p, part);
      assert Holds(repr, nodes[q], subs[q], values[q]) && values[q] == IdsAt(entries, q);
    }

    /** Where the walk of Match has come: k labels down, with their ids collected. */
    ghost predicate Reached(current: Node, matches: seq<seq<nat>>, labels: Path, k: nat)
      reads this
    {
      && k <= |labels| && labels[..k] in nodes && nodes[labels[..k]] == current
      && ConcatReversed(matches) == ByDepth(entries, labels, k)
    }

    /** One label further, or nothing more to find. */
    method Follow(current: Node, part: Label, matches: seq<seq<nat>>, ghost labels: Path, ghost k: nat)
      returns (next: Node?, matches': seq<seq<nat>>)
      requires Valid() && Reached(current, matches, labels, k) && k < |labels| && labels[k] == part
      ensures next == null ==> matches' == matches && ByDepth(entries, labels, |labels|) == ByDepth(entries, labels, k)
      ensures next != null ==> Reached(next, matches', labels, k + 1)
    {
      ChildStep(labels, k);
      next := Find(current, part, labels[..k]);
      matches' := matches;
      if next == null {
        NoneFound(root, nodes, values, entries, labels, k);
      } else {
        MatchStep(matches, entries, labels, k, next.values);
        if |next.values| > 0 {
          matches' := matches + [next.values];
        }
      }
    }

    /** Match walks the name's labels from the last to the first as far as the trie goes. */
    method Match(domain: string) returns (result: seq<nat>)
      requires Valid()
      ensures result == MatchSpec(entries, domain)
    {
      if domain == "" {
        return [];
      }
      ghost var labels := Labels(domain);
      if root == null {
        NoEntries(labels, |labels|);
        return [];
      }
      var current: Node := root;
      var matches: seq<seq<nat>> := [];
      var idx := |domain|;
      ghost var k := 0;
      while idx != -1
        invariant -1 <= idx <= |domain| && Reached(current, matches, labels, k)
        invariant if idx == -1 then k == |labels| else labels[k..] == LabelsTo(domain, idx)
        decreases idx
      {
        var nidx := NextPart(domain, idx);
        LabelsWalk(domain, idx, labels, k);
        var next;
        next, matches := Follow(current, Label(domain[nidx + 1..idx]), matches, labels, k);
        if next == null {
          break;
        }
        current, idx := next, nidx;
        k := k + 1;
      }
      result := Collect(matches);
    }

    method Put(current: Node, e: Entry<Path>)
      requires Valid() && e.path in nodes && nodes[e.path] == current
      modifies this`values, this`entries, current`values
      ensures Valid() && entries == old(entries) + [e]
    {
      ghost var p := e.path;
      assert Holds(repr, current, subs[p], values[p]);
      FilledPut(values, entries, e);
      current.values := current.values + [e.id];
      forall r | r in nodes && r != p
        ensures Holds(repr, nodes[r], subs[r], values[r])
      {
        assert old(Holds(repr, nodes[r], subs[r], values[r])) && nodes[r] != current;
      }
      PutKeeps(repr, nodes, subs, values, p);
      values, entries := values[p := values[p] + [e.id]], entries + [e];
    }
  }

  /** nextPart: the dot before position idx. */
  method NextPart(domain: string, idx: nat) returns (i: int)
    requires idx <= |domain|
    ensures i == DotBefore(domain, idx)
  {
    i := idx - 1;
    while i >= 0
      invariant -1 <= i < idx
      invariant forall k :: i < k < idx ==> domain[k] != '.'
    {
      if domain[i] == '.' {
        break;
      }
      i := i - 1;
    }
    DotUnique(domain, idx, i);
  }

  lemma {:induction false} TailStep(labels: Path, k: nat, x: Label, xs: Path)
    requires k <= |labels| && labels[k..] == [x] + xs
    ensures k < |labels| && labels[k] == x && labels[k + 1..] == xs
    ensures Child(labels[..k], labels[k]) == labels[..k + 1]
  {
    assert labels[k..][0] == labels[k] && labels[k..][1..] == labels[k + 1..];
    assert ([x] + xs)[1..] == xs;
  }

  lemma {:induction false} LastStep(labels: Path, k: nat, x: Label)
    requires k <= |labels| && labels[k..] == [x]
    ensures k + 1 == |labels| && labels[k] == x && Child(labels[..k], labels[k]) == labels[..k + 1]
  {
    assert labels[k..][0] == labels[k];
  }

  /** One step of the walk takes the next label. */
  lemma {:induction false} LabelsWalk(domain: string, idx: nat, labels: Path, k: nat)
    requires idx <= |domain| && k <= |labels| && labels[k..] == LabelsTo(domain, idx)
    ensures k < |labels| && labels[k] == Label(domain[DotBefore(domain, idx) + 1..idx])
    ensures Child(labels[..k], labels[k]) == labels[..k + 1]
    ensures DotBefore(domain, idx) < 0 ==> k + 1 == |labels|
    ensures DotBefore(domain, idx) >= 0 ==> labels[k + 1..] == LabelsTo(domain, DotBefore(domain, idx))
  {
    var i := DotBefore(domain, idx);
    LabelsStep(domain, idx);
    var first := Label(domain[i + 1..idx]);
    if i < 0 {
      LastStep(labels, k, first);
    } else {
      TailStep(labels, k, first, LabelsTo(domain, i));
    }
  }

  function ConcatReversed(ms: seq<seq<nat>>): seq<nat> {
    if ms == [] then [] else ms[|ms| - 1] + ConcatReversed(ms[..|ms| - 1])
  }

  lemma {:induction false} MatchStep(ms: seq<seq<nat>>, entries: seq<Entry<Path>>, labels: Path, k: nat, ids: seq<nat>)
    requires k < |labels| && ConcatReversed(ms) == ByDepth(entries, labels, k) && ids == IdsAt(entries, labels[..k + 1])
    ensures ConcatReversed(if |ids| > 0 then ms + [ids] else ms) == ByDepth(entries, labels, k + 1)
  {
    ConcatReversedAppend(ms, ids);
  }

  lemma ConcatReversedAppend(ms: seq<seq<nat>>, m: seq<nat>)
    ensures ConcatReversed(ms + [m]) == m + ConcatReversed(ms)
  {
    assert (ms + [m])[..|ms|] == ms;
  }

  /** The matches, the one found last first. */
  method Collect(matches: seq<seq<nat>>) returns (result: seq<nat>)
    ensures result == ConcatReversed(matches)
  {
    result := [];
    var i := 0;
    assert matches[..|matches|] == matches;
    while i < |matches|
      invariant 0 <= i <= |matches|
      invariant result + ConcatReversed(matches[..|matches| - i]) == ConcatReversed(matches)
    {
      ghost var left := matches[..|matches| - i];
      assert left[..|left| - 1] == matches[..|matches| - i - 1];
      ConcatAssociative(result, matches[|matches| - 1 - i], ConcatReversed(matches[..|matches| - i - 1]));
      result := result + matches[|matches| - 1 - i];
      i := i + 1;
    }
  }

  /** Below a path that is not in the trie there are no ids. */
  lemma {:induction false} NothingFound(values: map<Path, seq<nat>>, entries: seq<Entry<Path>>, labels: Path, k: nat,
                                        n: nat)
    requires Filled(values, entries) && k <= n <= |labels|
    requires forall j :: k < j <= n ==> labels[..j] !in values
    ensures ByDepth(entries, labels, n) == ByDepth(entries, labels, k)
  {
    if k < n {
      NothingFound(values, entries, labels, k, n - 1);
      NoIdsAt(entries, labels[..n]);
    }
  }

  lemma {:induction false} NoEntries(labels: Path, n: nat)
    requires n <= |labels|
    ensures ByDepth([], labels, n) == []
  {
    if n > 0 {
      NoEntries(labels, n - 1);
    }
  }

  lemma {:induction false} NoneFound(root: Node?, nodes: map<Path, Node>, values: map<Path, seq<nat>>,
                                     entries: seq<Entry<Path>>, labels: Path, k: nat)
    requires Paths(root, nodes) && values.Keys == nodes.Keys && Filled(values, entries)
    requires k < |labels| && labels[..k + 1] !in nodes
    ensures ByDepth(entries, labels, |labels|) == ByDepth(entries, labels, k)
  {
    forall n | k < n <= |labels|
      ensures labels[..n] !in values
    {
      NoneBelow(root, nodes, labels, k, n);
    }
    NothingFound(values, entries, labels, k, |labels|);
  }

  /** A trie without a path has none below it. */
  lemma {:induction false} NoneBelow(root: Node?, nodes: map<Path, Node>, labels: Path, k: nat, n: nat)
    requires Paths(root, nodes) && k < n <= |labels| && labels[..k + 1] !in nodes
    ensures labels[..n] !in nodes
    decreases n
  {
    if k + 1 < n {
      NoneBelow(root, nodes, labels, k, n - 1);
      ChildStep(labels, n - 1);
    }
  }

  lemma EmptyRoot(root: Node)
    requires root.path == []
    ensures Shape(root, map[[] := root], map[[] := map[]])
    ensures Filled<Path>(map[[] := []], [])
  {
    var nodes := map[[] := root];
    assert [] in nodes;
    forall p, x
      ensures Child(p, x) !in nodes
    {
      assert |Child(p, x)| == |p| + 1;
    }
  }

  lemma {:induction false} FilledPut<P(!new)>(values: map<P, seq<nat>>, entries: seq<Entry<P>>, e: Entry<P>)
    requires Filled(values, entries) && e.path in values
    ensures Filled(values[e.path := values[e.path] + [e.id]], entries + [e])
  {
    var values', entries' := values[e.path := values[e.path] + [e.id]], entries + [e];
    forall p | p in values'
      ensures values'[p] == IdsAt(entries', p)
    {
      IdsAtAppend(entries, e, p);
    }
    forall i | 0 <= i < |entries'|
      ensures entries'[i].path in values'
    {
      assert i < |entries| ==> entries'[i] == entries[i];
    }
  }

  lemma MissingChild(root: Node?, nodes: map<Path, Node>, subs: map<Path, map<Label, Node>>, p: Path, part: Label)
    requires Shape(root, nodes, subs) && p in nodes && part !in subs[p]
    ensures Child(p, part) !in nodes
  {
    assert Linked(subs[p], p, nodes);
  }

  /** The trie as values: every node's map leads exactly to the nodes one label below. */
  ghost predicate Shape(root: Node?, nodes: map<Path, Node>, subs: map<Path, map<Label, Node>>) {
    Paths(root, nodes) && subs.Keys == nodes.Keys && forall p :: p in nodes ==> Linked(subs[p], p, nodes)
  }

  /** Every node holds the ids of the patterns that end there, and every pattern ends at a node. */
  ghost predicate Filled<P(!new)>(values: map<P, seq<nat>>, entries: seq<Entry<P>>) {
    && (forall p :: p in values ==> values[p] == IdsAt(entries, p))
    && (forall i :: 0 <= i < |entries| ==> entries[i].path in values)
  }

  lemma ShapeGrow(root: Node?, nodes: map<Path, Node>, subs: map<Path, map<Label, Node>>,
                  p: Path, part: Label, next: Node)
    requires Shape(root, nodes, subs) && p in nodes && part !in subs[p] && next.path == Child(p, part)
    ensures Child(p, part) !in nodes
    ensures Shape(root, nodes[Child(p, part) := next], subs[p := subs[p][part := next]][Child(p, part) := map[]])
  {
    var q := Child(p, part);
    assert Linked(subs[p], p, nodes) && q !in nodes;
    PathsGrow(root, nodes, p, part, next);
    var nodes', subs' := nodes[q := next], subs[p := subs[p][part := next]][q := map[]];
    forall r | r in nodes'
      ensures Linked(subs'[r], r, nodes')
    {
      if r == q {
        LinkedLeaf(root, nodes, q, next);
      } else if r == p {
        LinkedParent(subs[p], p, nodes, part, next);
      } else {
        LinkedOther(subs[r], r, nodes, p, part, next);
      }
    }
  }

  lemma FilledGrow<P(!new)>(values: map<P, seq<nat>>, entries: seq<Entry<P>>, q: P)
    requires Filled(values, entries) && q !in values
    ensures Filled(values[q := []], entries)
  {
    NoIdsAt(entries, q);
  }

  lemma ChildStep(path: Path, k: nat)
    requires k < |path|
    ensures Child(path[..k], path[k]) == path[..k + 1]
  {
  }

  lemma ChildInjective(p: Path, x: Label, q: Path, y: Label)
    ensures Child(p, x) == Child(q, y) <==> p == q && x == y
  {
    assert Child(p, x)[..|p|] == p && Child(p, x)[|p|] == x;
    assert Child(q, y)[..|q|] == q && Child(q, y)[|q|] == y;
  }
}
