/**
 Content snapshots of compiled inputs: the worklist walk `directory_inputs`, the expansion of
 every dependency of a scenario into digests of its members (`scenario_identity`), and the
 closing recheck of those digests.

 The file system is a finite tree. A file is represented by the digest of its contents, a path
 by the list of its components; `.` is the empty path.
 */
module Snapshot {
  import opened Wrappers

  type Path = seq<string>

  datatype Node = File(sha: nat) | Dir(children: seq<Child>) | Symlink | Special
  datatype Child = Child(name: string, node: Node)

  /** An entry of a snapshot. */
  datatype Entry = Directory | Regular(sha: nat)

  type Entries = map<Path, Entry>

  /** No directory lists a name twice. */
  ghost predicate WellFormed(n: Node) {
    n.Dir? ==>
      && (forall i, j :: 0 <= i < j < |n.children| ==> n.children[i].name != n.children[j].name)
      && (forall c :: c in n.children ==> WellFormed(c.node))
  }

  // ----- The reference: what is at a path -----

  function ChildNamed(cs: seq<Child>, name: string): (r: Option<Node>)
    ensures r.Some? ==> Child(name, r.value) in cs
    ensures r.None? ==> forall c :: c in cs ==> c.name != name
  {
    if cs == [] then None
    else if cs[0].name == name then Some(cs[0].node)
    else ChildNamed(cs[1..], name)
  }

  function Lookup(n: Node, p: Path): Option<Node> {
    if p == [] then Some(n)
    else if !n.Dir? then None
    else
      var c := ChildNamed(n.children, p[0]);
      if c.None? then None else Lookup(c.value, p[1..])
  }

  predicate IsRegular(n: Node) {
    n.File? || n.Dir?
  }

  function EntryOf(n: Node): Entry
    requires IsRegular(n)
  {
    if n.File? then Regular(n.sha) else Directory
  }

  /** Nothing below `n` is a symbolic link or a special file. */
  ghost predicate AllRegular(n: Node) {
    forall p: Path :: Lookup(n, p).Some? ==> IsRegular(Lookup(n, p).value)
  }

  /** `m` records exactly the paths of the tree, each as what it is. */
  ghost predicate IsSnapshot(n: Node, m: Entries) {
    forall p: Path ::
      && (p in m <==> Lookup(n, p).Some?)
      && (p in m ==> IsRegular(Lookup(n, p).value) && m[p] == EntryOf(Lookup(n, p).value))
  }

  /** The number of nodes of a tree. */
  function Size(n: Node): (size: nat)
    ensures size >= 1
  {
    if n.Dir? then 1 + SizeAll(n.children) else 1
  }

  function SizeAll(cs: seq<Child>): nat {
    if cs == [] then 0 else Size(cs[0].node) + SizeAll(cs[1..])
  }

  lemma {:induction false} LookupAppend(n: Node, p: Path, q: Path)
    ensures Lookup(n, p).Some? ==> Lookup(n, p + q) == Lookup(Lookup(n, p).value, q)
    ensures Lookup(n, p).None? ==> Lookup(n, p + q).None?
    decreases |p|
  {
    if p == [] {
      assert p + q == q;
    } else if n.Dir? && ChildNamed(n.children, p[0]).Some? {
      LookupAppend(ChildNamed(n.children, p[0]).value, p[1..], q);
      assert (p + q)[1..] == p[1..] + q;
    }
  }

  lemma {:induction false} ChildNamedAt(cs: seq<Child>, i: nat)
    requires i < |cs| && forall a, b :: 0 <= a < b < |cs| ==> cs[a].name != cs[b].name
    ensures ChildNamed(cs, cs[i].name) == Some(cs[i].node)
  {
    if i > 0 { ChildNamedAt(cs[1..], i - 1); }
  }

  lemma LookupChild(n: Node, p: Path, i: nat)
    requires Lookup(n, p).Some? && Lookup(n, p).value.Dir? && i < |Lookup(n, p).value.children|
    requires WellFormed(Lookup(n, p).value)
    ensures Lookup(n, p + [Lookup(n, p).value.children[i].name]) == Some(Lookup(n, p).value.children[i].node)
  {
    var d := Lookup(n, p).value;
    LookupAppend(n, p, [d.children[i].name]);
    ChildNamedAt(d.children, i);
    var c := d.children[i];
    assert Lookup(d, [c.name]) == Lookup(c.node, [c.name][1..]);
  }

  lemma {:induction false} WellFormedBelow(n: Node, p: Path)
    requires WellFormed(n) && Lookup(n, p).Some?
    ensures WellFormed(Lookup(n, p).value)
    decreases |p|
  {
    if p != [] {
      var c := ChildNamed(n.children, p[0]).value;
      assert Child(p[0], c) in n.children;
      WellFormedBelow(c, p[1..]);
    }
  }

  // ----- The walk -----

  datatype Pending = Pending(path: Path, node: Node)

  /** What the walk adds for the first `k` entries of a directory listing at `at`. */
  function Recorded(at: Path, cs: seq<Child>, k: nat): Entries
    requires k <= |cs| && forall i :: 0 <= i < k ==> IsRegular(cs[i].node)
  {
    if k == 0 then map[] else Recorded(at, cs, k - 1)[at + [cs[k - 1].name] := EntryOf(cs[k - 1].node)]
  }

  function Queued(at: Path, cs: seq<Child>, k: nat): seq<Pending>
    requires k <= |cs|
  {
    if k == 0 then []
    else Queued(at, cs, k - 1)
         + (if cs[k - 1].node.Dir? then [Pending(at + [cs[k - 1].name], cs[k - 1].node)] else [])
  }

  lemma NamesDiffer(at: Path, a: string, b: string)
    requires a != b
    ensures at + [a] != at + [b]
  {
    assert (at + [a])[|at|] == a && (at + [b])[|at|] == b;
  }

  predicate DistinctNames(cs: seq<Child>) {
    forall a, b :: 0 <= a < b < |cs| ==> cs[a].name != cs[b].name
  }

  predicate RegularUpTo(cs: seq<Child>, k: nat)
    requires k <= |cs|
  {
    forall i :: 0 <= i < k ==> IsRegular(cs[i].node)
  }

  lemma {:induction false} RecordedOnly(at: Path, cs: seq<Child>, k: nat, p: Path)
    requires k <= |cs| && RegularUpTo(cs, k) && p in Recorded(at, cs, k)
    ensures exists i :: 0 <= i < k && p == at + [cs[i].name]
  {
    if p != at + [cs[k - 1].name] { RecordedOnly(at, cs, k - 1, p); }
  }

  lemma {:induction false} RecordedAt(at: Path, cs: seq<Child>, k: nat, i: nat)
    requires i < k <= |cs| && RegularUpTo(cs, k) && DistinctNames(cs)
    ensures at + [cs[i].name] in Recorded(at, cs, k)
    ensures Recorded(at, cs, k)[at + [cs[i].name]] == EntryOf(cs[i].node)
  {
    if i < k - 1 {
      RecordedAt(at, cs, k - 1, i);
      NamesDiffer(at, cs[i].name, cs[k - 1].name);
    }
  }

  lemma {:induction false} RecordedSize(at: Path, cs: seq<Child>, k: nat)
    requires k <= |cs| && RegularUpTo(cs, k) && DistinctNames(cs)
    ensures |Recorded(at, cs, k)| == k
  {
    if k > 0 {
      var last := at + [cs[k - 1].name];
      RecordedSize(at, cs, k - 1);
      if last in Recorded(at, cs, k - 1) {
        RecordedOnly(at, cs, k - 1, last);
        var i :| 0 <= i < k - 1 && last == at + [cs[i].name];
        NamesDiffer(at, cs[i].name, cs[k - 1].name);
      }
    }
  }

  lemma RecordedKeys(at: Path, cs: seq<Child>, k: nat, p: Path)
    requires k <= |cs| && (forall i :: 0 <= i < k ==> IsRegular(cs[i].node))
    requires forall a, b :: 0 <= a < b < |cs| ==> cs[a].name != cs[b].name
    ensures p in Recorded(at, cs, k) <==> exists i :: 0 <= i < k && p == at + [cs[i].name]
    ensures forall i :: 0 <= i < k && p == at + [cs[i].name] ==>
              p in Recorded(at, cs, k) && Recorded(at, cs, k)[p] == EntryOf(cs[i].node)
    ensures |Recorded(at, cs, k)| == k
  {
    RecordedSize(at, cs, k);
    if p in Recorded(at, cs, k) { RecordedOnly(at, cs, k, p); }
    forall i | 0 <= i < k && p == at + [cs[i].name]
      ensures p in Recorded(at, cs, k) && Recorded(at, cs, k)[p] == EntryOf(cs[i].node)
    {
      RecordedAt(at, cs, k, i);
    }
  }

  lemma {:induction false} QueuedItems(at: Path, cs: seq<Child>, k: nat, x: Pending)
    requires k <= |cs|
    ensures x in Queued(at, cs, k) <==>
            exists i :: 0 <= i < k && cs[i].node.Dir? && x == Pending(at + [cs[i].name], cs[i].node)
  {
    if k > 0 { QueuedItems(at, cs, k - 1, x); }
  }

  lemma {:induction false} QueuedDistinct(at: Path, cs: seq<Child>, k: nat)
    requires k <= |cs| && forall a, b :: 0 <= a < b < |cs| ==> cs[a].name != cs[b].name
    ensures Distinct(Queued(at, cs, k))
  {
    if k > 0 {
      QueuedDistinct(at, cs, k - 1);
      var q := Queued(at, cs, k - 1);
      forall i | 0 <= i < |q| ensures q[i].path != at + [cs[k - 1].name] {
        QueuedItems(at, cs, k - 1, q[i]);
        var j :| 0 <= j < k - 1 && q[i] == Pending(at + [cs[j].name], cs[j].node);
        assert q[i].path[|at|] == cs[j].name;
      }
    }
  }

  ghost predicate Distinct(q: seq<Pending>) {
    forall i, j :: 0 <= i < j < |q| ==> q[i].path != q[j].path
  }

  /** Nodes still to be recorded below the pending directories. */
  function Unrecorded(q: seq<Pending>): nat {
    if q == [] then 0 else Unrecorded(q[..|q| - 1]) + Size(q[|q| - 1].node) - 1
  }

  lemma {:induction false} UnrecordedAppend(q: seq<Pending>, r: seq<Pending>)
    ensures Unrecorded(q + r) == Unrecorded(q) + Unrecorded(r)
    decreases |r|
  {
    if r == [] {
      assert q + r == q;
    } else {
      UnrecordedAppend(q, r[..|r| - 1]);
      assert (q + r)[..|q + r| - 1] == q + r[..|r| - 1];
    }
  }

  lemma {:induction false} SizeAllSnoc(cs: seq<Child>, c: Child)
    ensures SizeAll(cs + [c]) == SizeAll(cs) + Size(c.node)
  {
    if cs == [] {
      assert cs + [c] == [c];
    } else {
      SizeAllSnoc(cs[1..], c);
      assert (cs + [c])[1..] == cs[1..] + [c];
    }
  }

  lemma {:induction false} UnrecordedQueued(at: Path, cs: seq<Child>, k: nat)
    requires k <= |cs|
    ensures Unrecorded(Queued(at, cs, k)) + k == SizeAll(cs[..k])
    ensures |Queued(at, cs, k)| <= k
  {
    if k > 0 {
      UnrecordedQueued(at, cs, k - 1);
      assert cs[..k] == cs[..k - 1] + [cs[k - 1]];
      SizeAllSnoc(cs[..k - 1], cs[k - 1]);
      var x := Pending(at + [cs[k - 1].name], cs[k - 1].node);
      if cs[k - 1].node.Dir? {
        UnrecordedAppend(Queued(at, cs, k - 1), [x]);
        assert Unrecorded([x]) == Unrecorded([]) + Size(x.node) - 1;
      } else {
        assert Queued(at, cs, k) == Queued(at, cs, k - 1);
      }
    }
  }

  /** The loop invariant of the walk: recorded paths are right, and complete above the pending ones. */
  ghost predicate Walked(root: Node, m: Entries, q: seq<Pending>) {
    && [] in m
    && (forall p :: p in m ==> Lookup(root, p).Some? && IsRegular(Lookup(root, p).value)
                               && m[p] == EntryOf(Lookup(root, p).value))
    && (forall x :: x in q ==> x.path in m && Lookup(root, x.path) == Some(x.node) && x.node.Dir?)
    && Distinct(q)
    && (forall p, name {:trigger p + [name]} :: p in m && Lookup(root, p + [name]).Some?
          ==> p + [name] in m || exists x :: x in q && x.path == p)
    && (forall x, p :: x in q && p in m && x.path <= p ==> p == x.path)
    && |m| + Unrecorded(q) == Size(root)
  }

  /** The listing of one directory, recorded and queued. */
  method Visit(at: Path, cs: seq<Child>, entries: Entries, pending: seq<Pending>)
    returns (ok: bool, entries': Entries, pending': seq<Pending>)
    ensures ok <==> forall i :: 0 <= i < |cs| ==> IsRegular(cs[i].node)
    ensures ok ==> entries' == entries + Recorded(at, cs, |cs|) && pending' == pending + Queued(at, cs, |cs|)
  {
    ok, entries', pending' := true, entries, pending;
    assert entries + Recorded(at, cs, 0) == entries;
    for k := 0 to |cs|
      invariant forall i :: 0 <= i < k ==> IsRegular(cs[i].node)
      invariant entries' == entries + Recorded(at, cs, k)
      invariant pending' == pending + Queued(at, cs, k)
    {
      var relative := at + [cs[k].name];
      match cs[k].node
      case Dir(_) =>
        entries' := entries'[relative := Directory];
        pending' := pending' + [Pending(relative, cs[k].node)];
      case File(sha) =>
        entries' := entries'[relative := Regular(sha)];
      case _ =>
        ok := false;
        return;
    }
  }

  lemma ChildPaths(root: Node, d: Node, at: Path, name: string)
    requires Lookup(root, at) == Some(d) && d.Dir?
    ensures Lookup(root, at + [name]).Some? ==> exists i :: 0 <= i < |d.children| && d.children[i].name == name
  {
    LookupAppend(root, at, [name]);
    if Lookup(d, [name]).Some? {
      var c := Child(name, ChildNamed(d.children, name).value);
      assert c in d.children;
    }
  }

  // ----- One turn of the walk keeps the invariant -----

  /** The state of the walk when the directory `x` has just been popped. */
  ghost predicate Popped(root: Node, m: Entries, rest: seq<Pending>, x: Pending) {
    && WellFormed(root)
    && Walked(root, m, rest + [x])
    && x.node.Dir?
    && Lookup(root, x.path) == Some(x.node)
    && (forall i, j :: 0 <= i < j < |x.node.children| ==> x.node.children[i].name != x.node.children[j].name)
    && (forall i :: 0 <= i < |x.node.children| ==> IsRegular(x.node.children[i].node))
  }

  function Added(x: Pending): Entries
    requires x.node.Dir? && forall i :: 0 <= i < |x.node.children| ==> IsRegular(x.node.children[i].node)
  {
    Recorded(x.path, x.node.children, |x.node.children|)
  }

  function More(x: Pending): seq<Pending>
    requires x.node.Dir?
  {
    Queued(x.path, x.node.children, |x.node.children|)
  }

  lemma AddedPath(root: Node, m: Entries, rest: seq<Pending>, x: Pending, p: Path)
    requires Popped(root, m, rest, x)
    ensures p in Added(x) ==> |p| == |x.path| + 1 && x.path <= p && Lookup(root, p).Some?
                              && IsRegular(Lookup(root, p).value) && Added(x)[p] == EntryOf(Lookup(root, p).value)
                              && (Lookup(root, p).value.Dir? ==> Pending(p, Lookup(root, p).value) in More(x))
  {
    var cs := x.node.children;
    RecordedKeys(x.path, cs, |cs|, p);
    if p in Added(x) {
      var i :| 0 <= i < |cs| && p == x.path + [cs[i].name];
      WellFormedBelow(root, x.path);
      LookupChild(root, x.path, i);
      QueuedItems(x.path, cs, |cs|, Pending(p, cs[i].node));
    }
  }

  lemma MorePath(root: Node, m: Entries, rest: seq<Pending>, x: Pending, y: Pending)
    requires Popped(root, m, rest, x) && y in More(x)
    ensures y.path in Added(x) && |y.path| == |x.path| + 1 && x.path <= y.path
    ensures y.node.Dir? && Lookup(root, y.path) == Some(y.node)
  {
    var cs := x.node.children;
    QueuedItems(x.path, cs, |cs|, y);
    RecordedKeys(x.path, cs, |cs|, y.path);
    var i :| 0 <= i < |cs| && y == Pending(x.path + [cs[i].name], cs[i].node);
    WellFormedBelow(root, x.path);
    LookupChild(root, x.path, i);
  }

  lemma NewPathsAreNew(root: Node, m: Entries, rest: seq<Pending>, x: Pending, p: Path)
    requires Popped(root, m, rest, x) && p in Added(x)
    ensures p !in m
  {
    AddedPath(root, m, rest, x, p);
    assert x in rest + [x];
  }

  lemma PoppedPathIsGone(root: Node, m: Entries, rest: seq<Pending>, x: Pending, y: Pending)
    requires Popped(root, m, rest, x) && y in rest
    ensures y.path != x.path && y.path in m && Lookup(root, y.path) == Some(y.node) && y.node.Dir?
    ensures !(y.path <= x.path) && !(x.path <= y.path)
  {
    var q := rest + [x];
    var i :| 0 <= i < |rest| && rest[i] == y;
    assert q[i] == y && q[|rest|] == x;
    assert y in q && x in q;
  }

  lemma StepDistinct(root: Node, m: Entries, rest: seq<Pending>, x: Pending)
    requires Popped(root, m, rest, x)
    ensures Distinct(rest + More(x))
  {
    QueuedDistinct(x.path, x.node.children, |x.node.children|);
    var q := rest + [x];
    forall i, j | 0 <= i < j < |rest| ensures rest[i].path != rest[j].path {
      assert q[i] == rest[i] && q[j] == rest[j];
    }
    forall i, j | 0 <= i < |rest| && 0 <= j < |More(x)| ensures rest[i].path != More(x)[j].path {
      MorePath(root, m, rest, x, More(x)[j]);
      PoppedPathIsGone(root, m, rest, x, rest[i]);
    }
  }

  lemma StepClosed(root: Node, m: Entries, rest: seq<Pending>, x: Pending, p: Path, name: string)
    requires Popped(root, m, rest, x)
    requires p in m + Added(x) && Lookup(root, p + [name]).Some?
    ensures p + [name] in m + Added(x) || exists y :: y in rest + More(x) && y.path == p
  {
    if p in Added(x) {
      AddedPath(root, m, rest, x, p);
      LookupAppend(root, p, [name]);
      assert Pending(p, Lookup(root, p).value) in rest + More(x);
    } else if p == x.path {
      ChildPaths(root, x.node, p, name);
      RecordedKeys(x.path, x.node.children, |x.node.children|, p + [name]);
    } else if p + [name] !in m {
      var y :| y in rest + [x] && y.path == p;
      assert y in rest + More(x);
    }
  }

  lemma StepLeaves(root: Node, m: Entries, rest: seq<Pending>, x: Pending, y: Pending, p: Path)
    requires Popped(root, m, rest, x)
    requires y in rest + More(x) && p in m + Added(x) && y.path <= p
    ensures p == y.path
  {
    if p in Added(x) { AddedPath(root, m, rest, x, p); }
    if y in More(x) {
      MorePath(root, m, rest, x, y);
      assert x in rest + [x];
    } else {
      assert y in rest + [x];
      PoppedPathIsGone(root, m, rest, x, y);
    }
  }

  lemma StepSize(root: Node, m: Entries, rest: seq<Pending>, x: Pending)
    requires Popped(root, m, rest, x)
    ensures |m + Added(x)| + Unrecorded(rest + More(x)) == Size(root)
    ensures Unrecorded(rest + More(x)) + |rest + More(x)| < Unrecorded(rest + [x]) + |rest + [x]|
  {
    var cs := x.node.children;
    var k := |cs|;
    UnrecordedAppend(rest, More(x));
    UnrecordedAppend(rest, [x]);
    UnrecordedQueued(x.path, cs, k);
    assert cs[..k] == cs;
    assert Unrecorded([x]) == Unrecorded([]) + Size(x.node) - 1;
    RecordedKeys(x.path, cs, k, []);
    forall p | p in Added(x) ensures p !in m { NewPathsAreNew(root, m, rest, x, p); }
    DisjointSize(m, Added(x));
  }

  lemma DisjointSize(a: Entries, b: Entries)
    requires a.Keys !! b.Keys
    ensures |a + b| == |a| + |b|
  {
    assert (a + b).Keys == a.Keys + b.Keys;
  }

  lemma WalkStep(root: Node, m: Entries, rest: seq<Pending>, x: Pending)
    requires Popped(root, m, rest, x)
    ensures Walked(root, m + Added(x), rest + More(x))
    ensures Unrecorded(rest + More(x)) + |rest + More(x)| < Unrecorded(rest + [x]) + |rest + [x]|
  {
    forall p | p in m + Added(x)
      ensures Lookup(root, p).Some? && IsRegular(Lookup(root, p).value)
              && (m + Added(x))[p] == EntryOf(Lookup(root, p).value)
    {
      AddedPath(root, m, rest, x, p);
    }
    forall y | y in rest + More(x)
      ensures y.path in m + Added(x) && Lookup(root, y.path) == Some(y.node) && y.node.Dir?
    {
      if y in More(x) { MorePath(root, m, rest, x, y); } else { PoppedPathIsGone(root, m, rest, x, y); }
    }
    StepDistinct(root, m, rest, x);
    forall p, name | p in m + Added(x) && Lookup(root, p + [name]).Some?
      ensures p + [name] in m + Added(x) || exists y :: y in rest + More(x) && y.path == p
    {
      StepClosed(root, m, rest, x, p, name);
    }
    forall y, p | y in rest + More(x) && p in m + Added(x) && y.path <= p ensures p == y.path {
      StepLeaves(root, m, rest, x, y, p);
    }
    StepSize(root, m, rest, x);
  }

  /** Nothing pending means nothing missing. */
  lemma {:induction false} WalkComplete(root: Node, m: Entries, p: Path)
    requires Walked(root, m, []) && Lookup(root, p).Some?
    ensures p in m
    decreases |p|
  {
    if p != [] {
      var q, name := p[..|p| - 1], p[|p| - 1];
      assert p == q + [name];
      LookupAppend(root, q, [name]);
      WalkComplete(root, m, q);
    }
  }

  lemma WalkedIsSnapshot(root: Node, m: Entries)
    requires Walked(root, m, [])
    ensures IsSnapshot(root, m) && AllRegular(root) && |m| == Size(root)
  {
    forall p | Lookup(root, p).Some? ensures p in m { WalkComplete(root, m, p); }
  }

  lemma IrregularChild(root: Node, x: Pending)
    requires WellFormed(root) && Lookup(root, x.path) == Some(x.node) && x.node.Dir?
    requires exists i :: 0 <= i < |x.node.children| && !IsRegular(x.node.children[i].node)
    ensures !AllRegular(root)
  {
    var i :| 0 <= i < |x.node.children| && !IsRegular(x.node.children[i].node);
    WellFormedBelow(root, x.path);
    LookupChild(root, x.path, i);
  }

  lemma WalkStarts(root: Node)
    requires root.Dir?
    ensures Walked(root, map[[] := Directory], [Pending([], root)])
  {
    assert Unrecorded([Pending([], root)]) == Unrecorded([]) + Size(root) - 1;
  }

  /** The walk pops a directory whose names are distinct. */
  lemma PopStep(root: Node, m: Entries, rest: seq<Pending>, x: Pending)
    requires WellFormed(root) && Walked(root, m, rest + [x])
    ensures x.node.Dir? && Lookup(root, x.path) == Some(x.node)
    ensures (forall i :: 0 <= i < |x.node.children| ==> IsRegular(x.node.children[i].node)) ==>
              Popped(root, m, rest, x)
  {
    assert x in rest + [x];
    WellFormedBelow(root, x.path);
  }

  /**
   The walk fails exactly when it meets something that is neither a directory nor a regular
   file; otherwise it records every path of the tree, one entry for each node.
   */
  method DirectoryInputs(root: Node) returns (r: Option<Entries>)
    requires WellFormed(root)
    ensures r.Some? <==> root.Dir? && AllRegular(root)
    ensures r.Some? ==> IsSnapshot(root, r.value) && |r.value| == Size(root)
  {
    if !root.Dir? { return None; }
    var entries: Entries := map[[] := Directory];
    var pending := [Pending([], root)];
    WalkStarts(root);
    while pending != []
      invariant Walked(root, entries, pending)
      decreases Unrecorded(pending) + |pending|
    {
      var x, rest := pending[|pending| - 1], pending[..|pending| - 1];
      assert pending == rest + [x];
      PopStep(root, entries, rest, x);
      var ok, entries', pending' := Visit(x.path, x.node.children, entries, rest);
      if !ok {
        IrregularChild(root, x);
        return None;
      }
      WalkStep(root, entries, rest, x);
      entries, pending := entries', pending';
    }
    WalkedIsSnapshot(root, entries);
    r := Some(entries);
  }

  /** The walk of a regular tree, without the tests that cannot fail. */
  lemma SnapshotExists(root: Node) returns (m: Entries)
    requires WellFormed(root) && root.Dir? && AllRegular(root)
    ensures IsSnapshot(root, m)
  {
    m := map[[] := Directory];
    var pending := [Pending([], root)];
    WalkStarts(root);
    while pending != []
      invariant Walked(root, m, pending)
      decreases Unrecorded(pending) + |pending|
    {
      var x, rest := pending[|pending| - 1], pending[..|pending| - 1];
      assert pending == rest + [x];
      PopStep(root, m, rest, x);
      RegularChildren(root, x);
      WalkStep(root, m, rest, x);
      m, pending := m + Added(x), rest + More(x);
    }
    WalkedIsSnapshot(root, m);
  }

  lemma RegularChildren(root: Node, x: Pending)
    requires WellFormed(root) && AllRegular(root) && Lookup(root, x.path) == Some(x.node) && x.node.Dir?
    ensures forall i :: 0 <= i < |x.node.children| ==> IsRegular(x.node.children[i].node)
  {
    WellFormedBelow(root, x.path);
    forall i | 0 <= i < |x.node.children| ensures IsRegular(x.node.children[i].node) { LookupChild(root, x.path, i); }
  }

  // ----- Subtrees by restriction -----

  function Suffixes(m: Entries, r: Path): (qs: set<Path>)
    ensures forall q :: q in qs <==> r + q in m
  {
    var qs := set p | p in m && r <= p :: p[|r|..];
    assert forall q :: r + q in m ==> (r + q)[|r|..] == q;
    assert forall p :: p in m && r <= p ==> r + p[|r|..] == p;
    qs
  }

  /** The members of a snapshot below `r`, re-rooted at `r`. */
  function Restrict(m: Entries, r: Path): Entries {
    map q | q in Suffixes(m, r) :: m[r + q]
  }

  /** Restricting and re-rooting a snapshot gives the snapshot a fresh walk of the subtree would give. */
  lemma RestrictIsFresh(root: Node, m: Entries, r: Path, n: Node)
    requires IsSnapshot(root, m) && Lookup(root, r) == Some(n)
    ensures IsSnapshot(n, Restrict(m, r))
  {
    forall q: Path
      ensures q in Restrict(m, r) <==> Lookup(n, q).Some?
      ensures q in Restrict(m, r) ==> IsRegular(Lookup(n, q).value) && Restrict(m, r)[q] == EntryOf(Lookup(n, q).value)
    {
      LookupAppend(root, r, q);
      assert r + q in m <==> Lookup(root, r + q).Some?;
    }
  }

  lemma SnapshotUnique(n: Node, a: Entries, b: Entries)
    requires IsSnapshot(n, a) && IsSnapshot(n, b)
    ensures a == b
  {
    forall p: Path ensures p in a <==> p in b { assert p in a <==> Lookup(n, p).Some?; }
  }

  // ----- Digests of compiled inputs -----

  /** A file's digest, or `directory-sha256:` and the digest of a directory's snapshot. */
  datatype Digest = FileSha(sha: nat) | DirSha(sha: nat)

  /** `d` is what `compiled_input_digest` computes for the node `n`; none for an unreadable node. */
  ghost predicate HasDigest(h: Entries -> nat, n: Node, d: Digest) {
    || (n.File? && d == FileSha(n.sha))
    || (n.Dir? && exists m :: IsSnapshot(n, m) && d == DirSha(h(m)))
  }

  ghost predicate Readable(root: Node, p: Path) {
    Lookup(root, p).Some? && AllRegular(Lookup(root, p).value)
  }

  lemma DigestUnique(h: Entries -> nat, n: Node, d: Digest, e: Digest)
    requires HasDigest(h, n, d) && HasDigest(h, n, e)
    ensures d == e
  {
    if n.Dir? {
      var a :| IsSnapshot(n, a) && d == DirSha(h(a));
      var b :| IsSnapshot(n, b) && e == DirSha(h(b));
      SnapshotUnique(n, a, b);
    }
  }

  lemma DigestIsReadable(h: Entries -> nat, n: Node, d: Digest)
    requires HasDigest(h, n, d)
    ensures AllRegular(n)
  {
    if n.Dir? {
      var m :| IsSnapshot(n, m) && d == DirSha(h(m));
      forall p: Path | Lookup(n, p).Some? ensures IsRegular(Lookup(n, p).value) { assert p in m; }
    }
  }

  method CompiledInputDigest(h: Entries -> nat, root: Node, path: Path) returns (r: Option<Digest>)
    requires WellFormed(root)
    ensures r.Some? <==> Readable(root, path)
    ensures r.Some? ==> HasDigest(h, Lookup(root, path).value, r.value)
  {
    var n := Lookup(root, path);
    if n.None? { return None; }
    WellFormedBelow(root, path);
    match n.value
    case File(sha) =>
      return Some(FileSha(sha));
    case Dir(_) =>
      var m := DirectoryInputs(n.value);
      return if m.None? then None else Some(DirSha(h(m.value)));
    case _ =>
      assert Lookup(n.value, []) == n;
      return None;
  }

  // ----- The inputs of a scenario -----

  type Inputs = map<Path, Digest>

  ghost predicate RightDigests(h: Entries -> nat, root: Node, inputs: Inputs) {
    forall p :: p in inputs ==> Lookup(root, p).Some? && HasDigest(h, Lookup(root, p).value, inputs[p])
  }

  /** A dependency and all its members. */
  ghost predicate Below(root: Node, d: Path, p: Path) {
    d <= p && Lookup(root, p).Some?
  }

  /** The expansion of one dependency: one walk, and every subtree digest derived from it. */
  method Expand(h: Entries -> nat, root: Node, path: Path) returns (r: Option<Inputs>)
    requires WellFormed(root)
    ensures r.Some? <==> Readable(root, path)
    ensures r.Some? ==> RightDigests(h, root, r.value) && forall p :: p in r.value <==> Below(root, path, p)
  {
    var n := Lookup(root, path);
    if n.None? || !n.value.Dir? {
      var d := CompiledInputDigest(h, root, path);
      if d.None? { return None; }
      OnlyItself(root, path);
      return Some(map[path := d.value]);
    }
    WellFormedBelow(root, path);
    var snapshot := DirectoryInputs(n.value);
    if snapshot.None? { return None; }
    var expansion: Inputs := map[];
    var todo := snapshot.value.Keys;
    while todo != {}
      invariant todo <= snapshot.value.Keys
      invariant forall q :: q in snapshot.value && q !in todo ==> path + q in expansion
      invariant forall p :: p in expansion ==> path <= p && p[|path|..] in snapshot.value
      invariant RightDigests(h, root, expansion)
    {
      var relative :| relative in todo;
      todo := todo - {relative};
      var value := match snapshot.value[relative]
        case Regular(sha) => FileSha(sha)
        case Directory => DirSha(h(Restrict(snapshot.value, relative)));
      MemberDigest(h, root, path, snapshot.value, relative, value);
      expansion := expansion[path + relative := value];
    }
    forall p ensures p in expansion <==> Below(root, path, p) {
      ExpandedIsBelow(root, path, snapshot.value, p);
      if path <= p { assert p == path + p[|path|..]; }
    }
    r := Some(expansion);
  }

  lemma OnlyItself(root: Node, path: Path)
    requires Lookup(root, path).Some? && !Lookup(root, path).value.Dir?
    ensures forall p :: Below(root, path, p) <==> p == path
  {
    forall p | Below(root, path, p) ensures p == path {
      LookupAppend(root, path, p[|path|..]);
      assert p == path + p[|path|..];
    }
  }

  lemma MemberDigest(h: Entries -> nat, root: Node, path: Path, m: Entries, q: Path, d: Digest)
    requires Lookup(root, path).Some? && IsSnapshot(Lookup(root, path).value, m) && q in m
    requires d == (match m[q] case Regular(sha) => FileSha(sha) case Directory => DirSha(h(Restrict(m, q))))
    ensures Lookup(root, path + q).Some? && HasDigest(h, Lookup(root, path + q).value, d)
  {
    LookupAppend(root, path, q);
    var n := Lookup(root, path).value;
    assert q in m <==> Lookup(n, q).Some?;
    if m[q].Directory? { RestrictIsFresh(n, m, q, Lookup(n, q).value); }
  }

  lemma MemberIsBelow(root: Node, path: Path, m: Entries, q: Path)
    requires Lookup(root, path).Some? && IsSnapshot(Lookup(root, path).value, m)
    ensures q in m <==> Below(root, path, path + q)
  {
    LookupAppend(root, path, q);
    assert q in m <==> Lookup(Lookup(root, path).value, q).Some?;
  }

  lemma ExpandedIsBelow(root: Node, path: Path, m: Entries, p: Path)
    requires Lookup(root, path).Some? && IsSnapshot(Lookup(root, path).value, m)
    ensures Below(root, path, p) <==> path <= p && p[|path|..] in m
  {
    if path <= p {
      assert p == path + p[|path|..];
      MemberIsBelow(root, path, m, p[|path|..]);
    }
  }

  // The tree may change while the dependencies are expanded: dependency `i` is read from `trees[i]`.

  /** The two trees have the same digest at `p`. */
  ghost predicate SameDigest(h: Entries -> nat, a: Node, b: Node, p: Path) {
    && Lookup(a, p).Some? && Lookup(b, p).Some?
    && exists d :: HasDigest(h, Lookup(a, p).value, d) && HasDigest(h, Lookup(b, p).value, d)
  }

  /** Path `p` is a member of dependency `i`, as that was read. */
  ghost predicate Member(trees: seq<Node>, deps: seq<Path>, i: nat, p: Path)
    requires i < |deps| == |trees|
  {
    Below(trees[i], deps[i], p)
  }

  ghost predicate AllReadable(trees: seq<Node>, deps: seq<Path>, n: nat)
    requires n <= |deps| == |trees|
  {
    forall i :: 0 <= i < n ==> Readable(trees[i], deps[i])
  }

  /** Two of the first `n` expansions never disagree on a member they share. */
  ghost predicate NoConflict(h: Entries -> nat, trees: seq<Node>, deps: seq<Path>, n: nat)
    requires n <= |deps| == |trees|
  {
    forall i: nat, j: nat, p: Path :: i < j < n && Member(trees, deps, i, p) && Member(trees, deps, j, p) ==>
      SameDigest(h, trees[i], trees[j], p)
  }

  /** The digests of the members of the first `n` dependencies, and of nothing else. */
  ghost predicate Merged(h: Entries -> nat, trees: seq<Node>, deps: seq<Path>, n: nat, m: Inputs)
    requires n <= |deps| == |trees|
  {
    && (forall p: Path :: p in m ==> exists i: nat :: i < n && Member(trees, deps, i, p))
    && (forall i: nat, p: Path :: i < n && Member(trees, deps, i, p) ==>
          p in m && HasDigest(h, Lookup(trees[i], p).value, m[p]))
  }

  ghost predicate IsExpansion(h: Entries -> nat, root: Node, d: Path, m: Inputs) {
    RightDigests(h, root, m) && forall p :: p in m <==> Below(root, d, p)
  }

  lemma Conflicts(h: Entries -> nat, trees: seq<Node>, deps: seq<Path>, n: nat, m: Inputs, e: Inputs, p: Path)
    requires n < |deps| == |trees| && Merged(h, trees, deps, n, m) && IsExpansion(h, trees[n], deps[n], e)
    requires p in m && p in e && m[p] != e[p]
    ensures !NoConflict(h, trees, deps, n + 1)
  {
    var i: nat :| i < n && Member(trees, deps, i, p);
    assert Member(trees, deps, n, p);
    if SameDigest(h, trees[i], trees[n], p) {
      var d :| HasDigest(h, Lookup(trees[i], p).value, d) && HasDigest(h, Lookup(trees[n], p).value, d);
      DigestUnique(h, Lookup(trees[i], p).value, d, m[p]);
      DigestUnique(h, Lookup(trees[n], p).value, d, e[p]);
    }
  }

  lemma MergeOneMore(h: Entries -> nat, trees: seq<Node>, deps: seq<Path>, n: nat, m: Inputs, e: Inputs)
    requires n < |deps| == |trees| && Merged(h, trees, deps, n, m) && NoConflict(h, trees, deps, n)
    requires IsExpansion(h, trees[n], deps[n], e) && forall p :: p in m && p in e ==> m[p] == e[p]
    ensures Merged(h, trees, deps, n + 1, m + e) && NoConflict(h, trees, deps, n + 1)
  {
    forall p: Path | p in m + e ensures exists i: nat :: i < n + 1 && Member(trees, deps, i, p) {
      if p in e { assert Member(trees, deps, n, p); }
    }
    forall i: nat, p: Path | i < n + 1 && Member(trees, deps, i, p)
      ensures p in m + e && HasDigest(h, Lookup(trees[i], p).value, (m + e)[p])
    {
      if i == n { assert p in e; }
    }
    forall i: nat, j: nat, p: Path | i < j < n + 1 && Member(trees, deps, i, p) && Member(trees, deps, j, p)
      ensures SameDigest(h, trees[i], trees[j], p)
    {
      if j == n { assert p in e && HasDigest(h, Lookup(trees[i], p).value, m[p]); }
    }
  }

  /** One dependency merged into the digests of those before it. */
  method MergeNext(h: Entries -> nat, trees: seq<Node>, deps: seq<Path>, i: nat, inputs: Inputs) returns (r: Option<Inputs>)
    requires i < |deps| == |trees| && WellFormed(trees[i])
    requires NoConflict(h, trees, deps, i) && Merged(h, trees, deps, i, inputs)
    ensures r.Some? <==> Readable(trees[i], deps[i]) && NoConflict(h, trees, deps, i + 1)
    ensures r.Some? ==> Merged(h, trees, deps, i + 1, r.value)
  {
    var expansion := Expand(h, trees[i], deps[i]);
    if expansion.None? { return None; }
    assert IsExpansion(h, trees[i], deps[i], expansion.value);
    if exists p :: p in expansion.value && p in inputs && inputs[p] != expansion.value[p] {
      ghost var p :| p in expansion.value && p in inputs && inputs[p] != expansion.value[p];
      Conflicts(h, trees, deps, i, inputs, expansion.value, p);
      return None;
    }
    MergeOneMore(h, trees, deps, i, inputs, expansion.value);
    r := Some(inputs + expansion.value);
  }

  lemma NoConflictBefore(h: Entries -> nat, trees: seq<Node>, deps: seq<Path>, i: nat, n: nat)
    requires i <= n <= |deps| == |trees| && NoConflict(h, trees, deps, n)
    ensures NoConflict(h, trees, deps, i)
  {
  }

  /**
   The digests of all dependencies and their members. The merge fails exactly when a dependency is
   missing or holds something irregular, or two expansions disagree on a member they share.
   */
  method CompilerInputs(h: Entries -> nat, trees: seq<Node>, deps: seq<Path>) returns (r: Option<Inputs>)
    requires |trees| == |deps| && forall t :: t in trees ==> WellFormed(t)
    ensures r.Some? <==> AllReadable(trees, deps, |deps|) && NoConflict(h, trees, deps, |deps|)
    ensures r.Some? ==> Merged(h, trees, deps, |deps|, r.value)
  {
    var inputs: Inputs := map[];
    for i := 0 to |deps|
      invariant AllReadable(trees, deps, i) && NoConflict(h, trees, deps, i) && Merged(h, trees, deps, i, inputs)
    {
      var next := MergeNext(h, trees, deps, i, inputs);
      if next.None? {
        if NoConflict(h, trees, deps, |deps|) { NoConflictBefore(h, trees, deps, i + 1, |deps|); }
        return None;
      }
      inputs := next.value;
    }
    r := Some(inputs);
  }

  // The tree may change during the closing recheck too: path `p` is read again from `last(p)`.

  /** Every recorded digest still holds where it is read again. */
  ghost predicate StillHold(h: Entries -> nat, last: Path -> Node, inputs: Inputs) {
    forall p :: p in inputs ==> Lookup(last(p), p).Some? && HasDigest(h, Lookup(last(p), p).value, inputs[p])
  }

  method Recheck(h: Entries -> nat, last: Path -> Node, inputs: Inputs) returns (ok: bool)
    requires forall p :: p in inputs ==> WellFormed(last(p))
    ensures ok <==> StillHold(h, last, inputs)
  {
    var todo := inputs.Keys;
    while todo != {}
      invariant todo <= inputs.Keys
      invariant forall p :: p in inputs && p !in todo ==>
                  Lookup(last(p), p).Some? && HasDigest(h, Lookup(last(p), p).value, inputs[p])
    {
      var path :| path in todo;
      todo := todo - {path};
      var root := last(path);
      var d := CompiledInputDigest(h, root, path);
      if d.None? {
        if Lookup(root, path).Some? && HasDigest(h, Lookup(root, path).value, inputs[path]) {
          DigestIsReadable(h, Lookup(root, path).value, inputs[path]);
        }
        return false;
      }
      if d.value != inputs[path] {
        if HasDigest(h, Lookup(root, path).value, inputs[path]) {
          DigestUnique(h, Lookup(root, path).value, d.value, inputs[path]);
        }
        return false;
      }
    }
    ok := true;
  }

  /** The two trees hold the same things at and below `d`. */
  ghost predicate SameAt(a: Node, b: Node, d: Path) {
    forall q: Path :: AlikeAt(Lookup(a, d + q), Lookup(b, d + q))
  }

  ghost predicate Injective(h: Entries -> nat) {
    forall a: Entries, b: Entries :: h(a) == h(b) ==> a == b
  }

  ghost predicate AlikeAt(x: Option<Node>, y: Option<Node>) {
    && (x.Some? <==> y.Some?)
    && (x.Some? ==> IsRegular(x.value) && IsRegular(y.value) && EntryOf(x.value) == EntryOf(y.value))
  }

  lemma SnapshotsAlike(a: Node, b: Node, d: Path, m: Entries, x: Node, y: Node)
    requires Lookup(a, d) == Some(x) && Lookup(b, d) == Some(y) && IsSnapshot(x, m) && IsSnapshot(y, m)
    ensures SameAt(a, b, d)
  {
    forall q: Path ensures AlikeAt(Lookup(a, d + q), Lookup(b, d + q)) {
      LookupAppend(a, d, q);
      LookupAppend(b, d, q);
      assert q in m <==> Lookup(x, q).Some?;
      assert q in m <==> Lookup(y, q).Some?;
    }
  }

  lemma AlikeSnapshot(a: Node, b: Node, d: Path, m: Entries, x: Node, y: Node)
    requires Lookup(a, d) == Some(x) && Lookup(b, d) == Some(y) && IsSnapshot(x, m) && SameAt(a, b, d)
    ensures IsSnapshot(y, m)
  {
    forall q: Path
      ensures q in m <==> Lookup(y, q).Some?
      ensures q in m ==> IsRegular(Lookup(y, q).value) && m[q] == EntryOf(Lookup(y, q).value)
    {
      LookupAppend(a, d, q);
      LookupAppend(b, d, q);
      assert AlikeAt(Lookup(a, d + q), Lookup(b, d + q));
      assert q in m <==> Lookup(x, q).Some?;
    }
  }

  lemma FilesAlike(a: Node, b: Node, d: Path, x: Node, y: Node)
    requires Lookup(a, d) == Some(x) && Lookup(b, d) == Some(y) && x.File? && x == y
    ensures SameAt(a, b, d)
  {
    forall q: Path ensures AlikeAt(Lookup(a, d + q), Lookup(b, d + q)) {
      LookupAppend(a, d, q);
      LookupAppend(b, d, q);
    }
  }

  lemma SameBelow(a: Node, b: Node, d: Path, p: Path)
    requires SameAt(a, b, d) && d <= p
    ensures SameAt(a, b, p)
  {
    forall q: Path ensures AlikeAt(Lookup(a, p + q), Lookup(b, p + q)) {
      assert p + q == d + (p[|d|..] + q);
      assert AlikeAt(Lookup(a, d + (p[|d|..] + q)), Lookup(b, d + (p[|d|..] + q)));
    }
  }

  /** Equal contents give equal digests, and with a collision-free digest the other way round. */
  lemma DigestMeansContent(h: Entries -> nat, a: Node, b: Node, p: Path, d: Digest)
    requires Lookup(a, p).Some? && HasDigest(h, Lookup(a, p).value, d)
    ensures SameAt(a, b, p) ==> Lookup(b, p).Some? && HasDigest(h, Lookup(b, p).value, d)
    ensures Injective(h) && Lookup(b, p).Some? && HasDigest(h, Lookup(b, p).value, d) ==> SameAt(a, b, p)
  {
    var x := Lookup(a, p).value;
    if SameAt(a, b, p) {
      assert p + [] == p;
      assert AlikeAt(Lookup(a, p + []), Lookup(b, p + []));
      var y := Lookup(b, p).value;
      if x.Dir? {
        var m :| IsSnapshot(x, m) && d == DirSha(h(m));
        AlikeSnapshot(a, b, p, m, x, y);
      }
    }
    if Injective(h) && Lookup(b, p).Some? && HasDigest(h, Lookup(b, p).value, d) {
      var y := Lookup(b, p).value;
      if x.Dir? {
        var m :| IsSnapshot(x, m) && d == DirSha(h(m));
        var m' :| IsSnapshot(y, m') && d == DirSha(h(m'));
        SnapshotsAlike(a, b, p, m, x, y);
      } else {
        FilesAlike(a, b, p, x, y);
      }
    }
  }

  /** Every member of every dependency is read again with the digest it was read with. */
  ghost predicate Stood(h: Entries -> nat, trees: seq<Node>, deps: seq<Path>, last: Path -> Node)
    requires |deps| == |trees|
  {
    forall i: nat, p: Path :: i < |deps| && Member(trees, deps, i, p) ==> SameDigest(h, trees[i], last(p), p)
  }

  /** Every member of every dependency has, when it is read again, the content it was read with. */
  ghost predicate Same(trees: seq<Node>, deps: seq<Path>, last: Path -> Node)
    requires |deps| == |trees|
  {
    forall i: nat, p: Path :: i < |deps| && Member(trees, deps, i, p) ==> SameAt(trees[i], last(p), p)
  }

  lemma StoodHasNoConflict(h: Entries -> nat, trees: seq<Node>, deps: seq<Path>, last: Path -> Node)
    requires |deps| == |trees| && Stood(h, trees, deps, last)
    ensures NoConflict(h, trees, deps, |deps|)
  {
    forall i: nat, j: nat, p: Path | i < j < |deps| && Member(trees, deps, i, p) && Member(trees, deps, j, p)
      ensures SameDigest(h, trees[i], trees[j], p)
    {
      var c :| HasDigest(h, Lookup(trees[i], p).value, c) && HasDigest(h, Lookup(last(p), p).value, c);
      var d :| HasDigest(h, Lookup(trees[j], p).value, d) && HasDigest(h, Lookup(last(p), p).value, d);
      DigestUnique(h, Lookup(last(p), p).value, c, d);
    }
  }

  /** The recheck of the merged digests asks exactly whether everything stood still. */
  lemma RecheckMeansStood(h: Entries -> nat, trees: seq<Node>, deps: seq<Path>, last: Path -> Node, m: Inputs)
    requires |deps| == |trees| && Merged(h, trees, deps, |deps|, m)
    ensures StillHold(h, last, m) <==> Stood(h, trees, deps, last)
  {
    if Stood(h, trees, deps, last) {
      forall p | p in m ensures Lookup(last(p), p).Some? && HasDigest(h, Lookup(last(p), p).value, m[p]) {
        var i: nat :| i < |deps| && Member(trees, deps, i, p);
        var d :| HasDigest(h, Lookup(trees[i], p).value, d) && HasDigest(h, Lookup(last(p), p).value, d);
        DigestUnique(h, Lookup(trees[i], p).value, d, m[p]);
      }
    }
    if StillHold(h, last, m) {
      forall i: nat, p: Path | i < |deps| && Member(trees, deps, i, p) ensures SameDigest(h, trees[i], last(p), p) {
        assert p in m && HasDigest(h, Lookup(trees[i], p).value, m[p]);
      }
    }
  }

  /** Equal content stands still, and without collisions the other way round. */
  lemma StoodMeansSame(h: Entries -> nat, trees: seq<Node>, deps: seq<Path>, last: Path -> Node)
    requires |deps| == |trees| && AllReadable(trees, deps, |deps|) && forall t :: t in trees ==> WellFormed(t)
    ensures Same(trees, deps, last) ==> Stood(h, trees, deps, last)
    ensures Injective(h) && Stood(h, trees, deps, last) ==> Same(trees, deps, last)
  {
    if Injective(h) && Stood(h, trees, deps, last) {
      forall i: nat, p: Path | i < |deps| && Member(trees, deps, i, p) ensures SameAt(trees[i], last(p), p) {
        assert SameDigest(h, trees[i], last(p), p);
        var d :| HasDigest(h, Lookup(trees[i], p).value, d) && HasDigest(h, Lookup(last(p), p).value, d);
        DigestMeansContent(h, trees[i], last(p), p, d);
      }
    }
    if Same(trees, deps, last) {
      forall i: nat, p: Path | i < |deps| && Member(trees, deps, i, p) ensures SameDigest(h, trees[i], last(p), p) {
        assert SameAt(trees[i], last(p), p);
        var d := ReadableHasDigest(h, trees[i], deps[i], p);
        DigestMeansContent(h, trees[i], last(p), p, d);
      }
    }
  }

  /** What lies below a readable dependency has a digest. */
  lemma ReadableHasDigest(h: Entries -> nat, root: Node, dep: Path, p: Path) returns (d: Digest)
    requires WellFormed(root) && Readable(root, dep) && Below(root, dep, p)
    ensures HasDigest(h, Lookup(root, p).value, d)
  {
    var top, q := Lookup(root, dep).value, p[|dep|..];
    LookupAppend(root, dep, q);
    assert p == dep + q;
    WellFormedBelow(root, p);
    var n := Lookup(top, q).value;
    if n.Dir? {
      forall k: Path | Lookup(n, k).Some? ensures IsRegular(Lookup(n, k).value) { LookupAppend(top, q, k); }
      var m := SnapshotExists(n);
      d := DirSha(h(m));
    } else {
      assert IsRegular(n);
      d := FileSha(n.sha);
    }
  }

  /** A tree that has not changed below a readable dependency holds the same there. */
  lemma UnchangedIsSame(trees: seq<Node>, deps: seq<Path>, last: Path -> Node)
    requires |deps| == |trees| && AllReadable(trees, deps, |deps|)
    requires forall i: nat, p: Path :: i < |deps| && Member(trees, deps, i, p) ==> last(p) == trees[i]
    ensures Same(trees, deps, last)
  {
    forall i: nat, p: Path | i < |deps| && Member(trees, deps, i, p) ensures SameAt(trees[i], last(p), p) {
      UnchangedTreePasses(trees[i], deps[i]);
      SameBelow(trees[i], trees[i], deps[i], p);
    }
  }

  /**
   The whole: dependency `i` read from `trees[i]`, path `p` read again from `last(p)`. It succeeds
   exactly when everything was readable and every member is read again with the digest it was read
   with. So a tree that never changes passes, and with a collision-free digest a run passes exactly
   when every member has the content it was read with.
   */
  method ScenarioInputs(h: Entries -> nat, trees: seq<Node>, deps: seq<Path>, last: Path -> Node)
    returns (r: Option<Inputs>)
    requires |trees| == |deps| && (forall t :: t in trees ==> WellFormed(t)) && forall p: Path :: WellFormed(last(p))
    ensures r.Some? <==> AllReadable(trees, deps, |deps|) && Stood(h, trees, deps, last)
    ensures Injective(h) ==> (r.Some? <==> AllReadable(trees, deps, |deps|) && Same(trees, deps, last))
    ensures (forall i: nat, p: Path :: i < |deps| && Member(trees, deps, i, p) ==> last(p) == trees[i]) ==>
              (r.Some? <==> AllReadable(trees, deps, |deps|))
    ensures r.Some? ==> Merged(h, trees, deps, |deps|, r.value) && StillHold(h, last, r.value)
  {
    if AllReadable(trees, deps, |deps|) {
      StoodMeansSame(h, trees, deps, last);
      if forall i: nat, p: Path :: i < |deps| && Member(trees, deps, i, p) ==> last(p) == trees[i] {
        UnchangedIsSame(trees, deps, last);
      }
    }
    if Stood(h, trees, deps, last) { StoodHasNoConflict(h, trees, deps, last); }
    var inputs := CompilerInputs(h, trees, deps);
    if inputs.None? { return None; }
    RecheckMeansStood(h, trees, deps, last, inputs.value);
    var ok := Recheck(h, last, inputs.value);
    r := if ok then inputs else None;
  }

  lemma UnchangedTreePasses(root: Node, d: Path)
    requires Readable(root, d)
    ensures SameAt(root, root, d)
  {
    forall q: Path ensures AlikeAt(Lookup(root, d + q), Lookup(root, d + q)) {
      LookupAppend(root, d, q);
    }
  }
}
