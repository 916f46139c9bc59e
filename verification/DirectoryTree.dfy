/** The name space that a volume denotes, and how moving inodes to other blocks preserves it. */
module DirectoryTree {
  import opened Bytes
  import opened DentryCodec

  /** An inode as the directory tree sees it. */
  datatype Node = FileNode(bytes: seq<byte>) | DirNode(entries: map<Name, nat>)

  /** The live inodes, and inodes kept outside the live tree (snapshots). */
  datatype Namespace = Namespace(nodes: map<nat, Node>, outside: set<nat>)

  function EntriesOf(n: Node): map<Name, nat> {
    match n
    case FileNode(_) => map[]
    case DirNode(entries) => entries
  }

  /** Every entry leads to a live inode or outside, none leads to the root, and no inode is
      entered twice. */
  ghost predicate IsTree(ns: Namespace, root: nat) {
    && root in ns.nodes && ns.nodes[root].DirNode?
    && ns.nodes.Keys !! ns.outside
    && (forall i, a :: i in ns.nodes && a in EntriesOf(ns.nodes[i]) ==>
        EntryAllowed(ns, root, a, EntriesOf(ns.nodes[i])[a]))
    && (forall i, j, a, b :: EntersTwice(ns, i, j, a, b) ==> i == j && a == b)
  }

  ghost predicate EntryAllowed(ns: Namespace, root: nat, name: Name, target: nat) {
    NulFree(name) && target != root && (target in ns.nodes || target in ns.outside)
  }

  ghost predicate EntersTwice(ns: Namespace, i: nat, j: nat, a: Name, b: Name) {
    && i in ns.nodes && a in EntriesOf(ns.nodes[i])
    && j in ns.nodes && b in EntriesOf(ns.nodes[j])
    && EntriesOf(ns.nodes[i])[a] == EntriesOf(ns.nodes[j])[b]
  }

  /* ---- denotation ---- */

  /** Where a path leads. */
  datatype Place = At(ino: nat) | Missing | Outside(ino: nat, rest: seq<Name>)

  /** What is to be seen at an inode: the bytes of a file, the names in a directory. */
  datatype View = FileView(bytes: seq<byte>) | DirView(names: set<Name>)

  function ViewOf(n: Node): View {
    match n
    case FileNode(bytes) => FileView(bytes)
    case DirNode(entries) => DirView(entries.Keys)
  }

  function Locate(ns: Namespace, i: nat, path: seq<Name>): Place
    decreases |path|
  {
    if i !in ns.nodes then Outside(i, path)
    else if path == [] then At(i)
    else if path[0] in EntriesOf(ns.nodes[i]) then Locate(ns, EntriesOf(ns.nodes[i])[path[0]], path[1..])
    else Missing
  }

  /* ---- moving inodes ---- */

  function Rename(rho: map<nat, nat>, i: nat): nat {
    if i in rho then rho[i] else i
  }

  /** The node at `i` reappears at `rho[i]`, with its entries renamed. */
  ghost predicate MovesNode(n: Node, n': Node, rho: map<nat, nat>) {
    && ViewOf(n') == ViewOf(n)
    && forall a :: a in EntriesOf(n) ==> a in EntriesOf(n') && EntriesOf(n')[a] == Rename(rho, EntriesOf(n)[a])
  }

  ghost predicate Injective(rho: map<nat, nat>) {
    forall i, j :: i in rho && j in rho && rho[i] == rho[j] ==> i == j
  }

  /** `rho` moves the inodes of `ns` one to one to those of `ns'`, which show the same. */
  ghost predicate Moves(ns: Namespace, ns': Namespace, rho: map<nat, nat>) {
    && ns'.outside == ns.outside && ns'.nodes.Keys !! ns'.outside
    && rho.Keys == ns.nodes.Keys && rho.Values == ns'.nodes.Keys
    && Injective(rho)
    && (forall i :: i in rho ==> MovesNode(ns.nodes[i], ns'.nodes[rho[i]], rho))
  }

  function MovedPlace(rho: map<nat, nat>, p: Place): Place {
    match p
    case At(i) => At(Rename(rho, i))
    case Missing => Missing
    case Outside(i, rest) => Outside(i, rest)
  }

  lemma SameNames(n: Node, n': Node, rho: map<nat, nat>)
    requires MovesNode(n, n', rho)
    ensures EntriesOf(n').Keys == EntriesOf(n).Keys
  {
  }

  /** Moving inodes preserves the meaning of every path: it leads to the moved inode, which shows
      the same; paths that lead nowhere or outside still do. */
  lemma {:induction false} MovesLocate(ns: Namespace, ns': Namespace, rho: map<nat, nat>, root: nat, i: nat,
                                       path: seq<Name>)
    requires Moves(ns, ns', rho) && IsTree(ns, root) && i in ns.nodes
    ensures Locate(ns', rho[i], path) == MovedPlace(rho, Locate(ns, i, path))
    ensures Locate(ns, i, path).At? ==>
              var x := Locate(ns, i, path).ino;
              x in ns.nodes && rho[x] in ns'.nodes && ViewOf(ns'.nodes[rho[x]]) == ViewOf(ns.nodes[x])
    decreases |path|
  {
    assert MovesNode(ns.nodes[i], ns'.nodes[rho[i]], rho);
    SameNames(ns.nodes[i], ns'.nodes[rho[i]], rho);
    var e := EntriesOf(ns.nodes[i]);
    if path != [] && path[0] in e {
      var x := e[path[0]];
      assert EntryAllowed(ns, root, path[0], x);
      if x in ns.nodes {
        MovesLocate(ns, ns', rho, root, x, path[1..]);
      }
    }
  }

  function Compose(r1: map<nat, nat>, r2: map<nat, nat>): map<nat, nat> {
    map i | i in r1 :: Rename(r2, r1[i])
  }

  lemma MovesNodeTrans(n: Node, n1: Node, n2: Node, r1: map<nat, nat>, r2: map<nat, nat>, live: set<nat>)
    requires MovesNode(n, n1, r1) && MovesNode(n1, n2, r2) && r1.Keys == live
    requires forall a :: a in EntriesOf(n) && EntriesOf(n)[a] !in live ==> EntriesOf(n)[a] !in r2
    ensures MovesNode(n, n2, Compose(r1, r2))
  {
  }

  lemma ComposeValues(r1: map<nat, nat>, r2: map<nat, nat>)
    requires r1.Values == r2.Keys
    ensures Compose(r1, r2).Values == r2.Values
  {
    var rho := Compose(r1, r2);
    forall j | j in r2.Values
      ensures j in rho.Values
    {
      var k :| k in r2 && r2[k] == j;
      var i :| i in r1 && r1[i] == k;
      assert rho[i] == j;
    }
  }

  lemma MovesTransAt(ns: Namespace, ns1: Namespace, ns2: Namespace, r1: map<nat, nat>, r2: map<nat, nat>,
                     root: nat, i: nat)
    requires Moves(ns, ns1, r1) && Moves(ns1, ns2, r2) && IsTree(ns, root) && i in ns.nodes
    ensures r1[i] in r2 && MovesNode(ns.nodes[i], ns2.nodes[r2[r1[i]]], Compose(r1, r2))
  {
    assert MovesNode(ns.nodes[i], ns1.nodes[r1[i]], r1);
    assert MovesNode(ns1.nodes[r1[i]], ns2.nodes[r2[r1[i]]], r2);
    forall a | a in EntriesOf(ns.nodes[i])
      ensures EntryAllowed(ns, root, a, EntriesOf(ns.nodes[i])[a])
    {
    }
    MovesNodeTrans(ns.nodes[i], ns1.nodes[r1[i]], ns2.nodes[r2[r1[i]]], r1, r2, ns.nodes.Keys);
  }

  lemma ComposeInjective(r1: map<nat, nat>, r2: map<nat, nat>)
    requires r1.Values == r2.Keys
    requires Injective(r1) && Injective(r2)
    ensures Injective(Compose(r1, r2))
  {
    forall i | i in r1
      ensures r1[i] in r2
    {
    }
  }

  lemma MovesTransAll(ns: Namespace, ns1: Namespace, ns2: Namespace, r1: map<nat, nat>, r2: map<nat, nat>, root: nat)
    requires Moves(ns, ns1, r1) && Moves(ns1, ns2, r2) && IsTree(ns, root)
    ensures r1.Keys == ns.nodes.Keys && r1.Values == r2.Keys && Injective(r1) && Injective(r2)
    ensures r2.Values == ns2.nodes.Keys && ns2.outside == ns.outside && ns2.nodes.Keys !! ns2.outside
    ensures forall i :: i in ns.nodes ==> r1[i] in r2 && MovesNode(ns.nodes[i], ns2.nodes[r2[r1[i]]], Compose(r1, r2))
  {
    forall i | i in ns.nodes
      ensures r1[i] in r2 && MovesNode(ns.nodes[i], ns2.nodes[r2[r1[i]]], Compose(r1, r2))
    {
      MovesTransAt(ns, ns1, ns2, r1, r2, root, i);
    }
  }

  lemma MovesFromParts(ns: Namespace, ns2: Namespace, r1: map<nat, nat>, r2: map<nat, nat>)
    requires r1.Keys == ns.nodes.Keys && r1.Values == r2.Keys && Injective(r1) && Injective(r2)
    requires r2.Values == ns2.nodes.Keys && ns2.outside == ns.outside && ns2.nodes.Keys !! ns2.outside
    requires forall i :: i in ns.nodes ==> r1[i] in r2 && MovesNode(ns.nodes[i], ns2.nodes[r2[r1[i]]], Compose(r1, r2))
    ensures Moves(ns, ns2, Compose(r1, r2))
  {
    ComposeValues(r1, r2);
    ComposeInjective(r1, r2);
  }

  /** Moving twice is moving once. */
  lemma MovesTrans(ns: Namespace, ns1: Namespace, ns2: Namespace, r1: map<nat, nat>, r2: map<nat, nat>, root: nat)
    requires Moves(ns, ns1, r1) && Moves(ns1, ns2, r2) && IsTree(ns, root)
    ensures Moves(ns, ns2, Compose(r1, r2))
  {
    MovesTransAll(ns, ns1, ns2, r1, r2, root);
    MovesFromParts(ns, ns2, r1, r2);
  }

  lemma RenameInjective(ns: Namespace, ns': Namespace, rho: map<nat, nat>, x: nat, y: nat)
    requires Moves(ns, ns', rho)
    requires (x in ns.nodes || x in ns.outside) && (y in ns.nodes || y in ns.outside)
    ensures Rename(rho, x) == Rename(rho, y) ==> x == y
    ensures Rename(rho, x) in ns'.nodes || Rename(rho, x) in ns'.outside
  {
  }

  lemma Origin(ns: Namespace, ns': Namespace, rho: map<nat, nat>, j: nat, a: Name) returns (i: nat)
    requires Moves(ns, ns', rho) && j in ns'.nodes && a in EntriesOf(ns'.nodes[j])
    ensures i in ns.nodes && rho[i] == j && a in EntriesOf(ns.nodes[i])
    ensures EntriesOf(ns'.nodes[j])[a] == Rename(rho, EntriesOf(ns.nodes[i])[a])
  {
    assert j in rho.Values;
    i :| i in rho && rho[i] == j;
    assert MovesNode(ns.nodes[i], ns'.nodes[rho[i]], rho);
    SameNames(ns.nodes[i], ns'.nodes[rho[i]], rho);
  }

  /** A tree stays a tree when its inodes move. */
  lemma MovedTree(ns: Namespace, ns': Namespace, rho: map<nat, nat>, root: nat)
    requires IsTree(ns, root) && Moves(ns, ns', rho)
    ensures IsTree(ns', rho[root])
  {
    assert MovesNode(ns.nodes[root], ns'.nodes[rho[root]], rho);
    forall j, a | j in ns'.nodes && a in EntriesOf(ns'.nodes[j])
      ensures EntryAllowed(ns', rho[root], a, EntriesOf(ns'.nodes[j])[a])
    {
      var i := Origin(ns, ns', rho, j, a);
      var x := EntriesOf(ns.nodes[i])[a];
      assert EntryAllowed(ns, root, a, x);
      RenameInjective(ns, ns', rho, x, root);
    }
    forall j, k, a, b | EntersTwice(ns', j, k, a, b)
      ensures j == k && a == b
    {
      var i := Origin(ns, ns', rho, j, a);
      var h := Origin(ns, ns', rho, k, b);
      var (x, y) := (EntriesOf(ns.nodes[i])[a], EntriesOf(ns.nodes[h])[b]);
      assert EntryAllowed(ns, root, a, x) && EntryAllowed(ns, root, b, y);
      RenameInjective(ns, ns', rho, x, y);
      assert EntersTwice(ns, i, h, a, b);
    }
  }

  /** The move of a single inode. */
  function MoveOne(ns: Namespace, c: nat, n: nat): map<nat, nat> {
    map i | i in ns.nodes :: if i == c then n else i
  }

  function WithRootAt(ns: Namespace, c: nat, n: nat): Namespace
    requires c in ns.nodes
  {
    ns.(nodes := (ns.nodes - {c})[n := ns.nodes[c]])
  }

  /** Inode `c`, entered from directory `p` under `name`, moves to `n`, and its entry follows. */
  function WithChildAt(ns: Namespace, p: nat, name: Name, c: nat, n: nat): Namespace
    requires c in ns.nodes && p in ns.nodes && p != c
  {
    ns.(nodes := (ns.nodes - {c})[n := ns.nodes[c]][p := DirNode(EntriesOf(ns.nodes[p])[name := n])])
  }

  lemma MoveOneValues(ns: Namespace, c: nat, n: nat)
    requires c in ns.nodes && n !in ns.nodes
    ensures MoveOne(ns, c, n).Values == ns.nodes.Keys - {c} + {n}
  {
    var rho := MoveOne(ns, c, n);
    assert rho[c] == n;
    forall j | j in ns.nodes.Keys - {c}
      ensures j in rho.Values
    {
      assert rho[j] == j;
    }
  }

  lemma RootMoves(ns: Namespace, c: nat, n: nat)
    requires IsTree(ns, c) && n !in ns.nodes && n !in ns.outside
    ensures Moves(ns, WithRootAt(ns, c, n), MoveOne(ns, c, n))
    ensures IsTree(WithRootAt(ns, c, n), n)
  {
    var (ns', rho) := (WithRootAt(ns, c, n), MoveOne(ns, c, n));
    MoveOneValues(ns, c, n);
    forall i | i in rho
      ensures MovesNode(ns.nodes[i], ns'.nodes[rho[i]], rho)
    {
      forall a | a in EntriesOf(ns.nodes[i])
        ensures EntriesOf(ns.nodes[i])[a] != c
      {
        assert EntryAllowed(ns, c, a, EntriesOf(ns.nodes[i])[a]);
      }
    }
    MovedTree(ns, ns', rho, c);
  }

  lemma ChildMoves(ns: Namespace, root: nat, p: nat, name: Name, c: nat, n: nat)
    requires IsTree(ns, root) && n !in ns.nodes && n !in ns.outside
    requires c in ns.nodes && p in ns.nodes && p != c
    requires name in EntriesOf(ns.nodes[p]) && EntriesOf(ns.nodes[p])[name] == c
    ensures c != root
    ensures Moves(ns, WithChildAt(ns, p, name, c, n), MoveOne(ns, c, n))
    ensures IsTree(WithChildAt(ns, p, name, c, n), root)
  {
    var (ns', rho) := (WithChildAt(ns, p, name, c, n), MoveOne(ns, c, n));
    assert EntryAllowed(ns, root, name, c);
    MoveOneValues(ns, c, n);
    forall i | i in rho
      ensures MovesNode(ns.nodes[i], ns'.nodes[rho[i]], rho)
    {
      forall a | a in EntriesOf(ns.nodes[i]) && (i != p || a != name)
        ensures EntriesOf(ns.nodes[i])[a] != c
      {
        assert !EntersTwice(ns, i, p, a, name);
      }
      if i == p {
        assert EntriesOf(ns'.nodes[p]).Keys == EntriesOf(ns.nodes[p]).Keys;
      }
    }
    MovedTree(ns, ns', rho, root);
  }

  lemma MovedKind(ns: Namespace, ns': Namespace, rho: map<nat, nat>, i: nat)
    requires Moves(ns, ns', rho) && i in ns.nodes
    ensures i in rho && rho[i] in ns'.nodes && ns'.nodes[rho[i]].DirNode? == ns.nodes[i].DirNode?
  {
    assert MovesNode(ns.nodes[i], ns'.nodes[rho[i]], rho);
  }

  lemma SameMap(m: map<nat, Node>, m': map<nat, Node>)
    requires m'.Keys == m.Keys && forall i :: i in m ==> m'[i] == m[i]
    ensures m' == m
  {
  }

  /* ---- paths of inodes ---- */

  ghost predicate EnteredFrom(ns: Namespace, p: nat, c: nat) {
    p in ns.nodes && exists a :: a in EntriesOf(ns.nodes[p]) && EntriesOf(ns.nodes[p])[a] == c
  }

  lemma EnteredOnce(ns: Namespace, root: nat, p: nat, q: nat, c: nat)
    requires IsTree(ns, root) && EnteredFrom(ns, p, c)
    ensures c != root && (EnteredFrom(ns, q, c) ==> p == q)
  {
    var a :| a in EntriesOf(ns.nodes[p]) && EntriesOf(ns.nodes[p])[a] == c;
    assert EntryAllowed(ns, root, a, c);
    if EnteredFrom(ns, q, c) {
      var b :| b in EntriesOf(ns.nodes[q]) && EntriesOf(ns.nodes[q])[b] == c;
      assert EntersTwice(ns, p, q, a, b);
    }
  }

  /** The inodes on a path down from the root. */
  ghost predicate Descends(ns: Namespace, root: nat, ids: seq<nat>) {
    && ids != [] && ids[0] == root
    && forall j, k :: 0 <= j < |ids| && k == j + 1 && k < |ids| ==> EnteredFrom(ns, ids[j], ids[k])
  }

  /** No inode occurs twice on a path, because none is entered twice and the root never. */
  lemma {:induction false} DescendsDistinct(ns: Namespace, root: nat, ids: seq<nat>, j: nat, k: nat)
    requires IsTree(ns, root) && Descends(ns, root, ids) && j < k < |ids|
    ensures ids[j] != ids[k]
  {
    EnteredOnce(ns, root, ids[k - 1], if j == 0 then 0 else ids[j - 1], ids[k]);
    if j != 0 {
      DescendsDistinct(ns, root, ids, j - 1, k - 1);
      assert EnteredFrom(ns, ids[j - 1], ids[j]);
    }
  }
}
