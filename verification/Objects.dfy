/** Git objects and their content addresses. SHA-1 is an arbitrary but fixed function `Sha`
    about which only two things are known: it never maps two objects to one id, and ids can be
    ranked so that every object outranks whatever it refers to (no hash cycles). */
module Objects {
  import opened Prelude

  type Oid = seq<nat>
  type NodeId = seq<nat>
  type Path = string

  /** The name of one tree entry; git forbids a separator in it. */
  type Name = s: string | '/' !in s

  /** Who a commit names as its author: the engine's own fixed identity, or a node. */
  datatype Author = FoldAuthor | NodeAuthor(node: NodeId)

  /** A commit message: free text, or the text of an edit with its trailers. */
  datatype Message =
    | Text(text: string)
    | Edit(subject: string, counter: nat, node: NodeId, readds: seq<Oid>, signature: seq<nat>)

  datatype CommitObj = CommitObj(
    tree: Oid,
    parents: seq<Oid>,
    author: Author,
    authorTime: nat,
    committer: Author,
    committerTime: nat,
    message: Message)

  /** A tree is its entries: file entries and directory entries, each keyed by name. */
  datatype GitObject =
    | Blob(content: Bytes)
    | Tree(files: map<Name, Oid>, dirs: map<Name, Oid>)
    | Commit(commit: CommitObj)

  function Refs(obj: GitObject): set<Oid> {
    match obj
    case Blob(_) => {}
    case Tree(files, dirs) => files.Values + dirs.Values
    case Commit(c) => Elements(c.parents) + {c.tree}
  }

  ghost predicate Injective(h: GitObject -> Oid) {
    forall a, b :: h(a) == h(b) ==> a == b
  }

  ghost predicate Ranks(h: GitObject -> Oid, rank: Oid -> nat) {
    forall obj, ref :: ref in Refs(obj) ==> rank(ref) < rank(h(obj))
  }

  ghost predicate GoodHash(h: GitObject -> Oid) {
    Injective(h) && exists rank: Oid -> nat :: Ranks(h, rank)
  }

  type Hash = h: GitObject -> Oid | GoodHash(h) witness (EncodeIsGood(); EncodeFn())

  const Sha: Hash

  lemma ShaInjective(a: GitObject, b: GitObject)
    requires Sha(a) == Sha(b)
    ensures a == b
  {
    assert GoodHash(Sha);
  }

  ghost function Ranking(): (rank: Oid -> nat)
    ensures Ranks(Sha, rank)
  {
    assert GoodHash(Sha);
    var rank: Oid -> nat :| Ranks(Sha, rank);
    rank
  }

  ghost function Rank(o: Oid): nat {
    Ranking()(o)
  }

  lemma RefsRankBelow(obj: GitObject, ref: Oid)
    requires ref in Refs(obj)
    ensures Rank(ref) < Rank(Sha(obj))
  {
    assert Ranks(Sha, Ranking());
  }

  // ---- Reading an id as the object it addresses ----

  /** The object an id addresses, if the id is the hash of anything at all. */
  ghost function Preimage(o: Oid): Option<GitObject> {
    if exists obj :: Sha(obj) == o then
      var obj :| Sha(obj) == o;
      Some(obj)
    else
      None
  }

  lemma PreimageOfSha(obj: GitObject)
    ensures Preimage(Sha(obj)) == Some(obj)
  {
    assert exists x :: Sha(x) == Sha(obj) by {
      assert Sha(obj) == Sha(obj);
    }
    ShaInjective(Preimage(Sha(obj)).value, obj);
  }

  ghost function CommitAt(o: Oid): Option<CommitObj> {
    match Preimage(o)
    case Some(Commit(c)) => Some(c)
    case _ => None
  }

  ghost predicate IsCommit(o: Oid) {
    CommitAt(o).Some?
  }

  /** A commit is a primitive exactly when its message carries the edit trailers. */
  predicate Primitive(c: CommitObj) {
    c.message.Edit?
  }

  predicate IsEdit(obj: GitObject) {
    obj.Commit? && Primitive(obj.commit)
  }

  ghost predicate IsPrimitive(o: Oid) {
    IsCommit(o) && Primitive(CommitAt(o).value)
  }

  ghost function Parents(o: Oid): (ps: seq<Oid>)
    ensures forall p :: p in ps ==> Rank(p) < Rank(o)
  {
    match CommitAt(o)
    case Some(c) =>
      PreimageSound(o);
      assert forall p :: p in c.parents ==> p in Refs(Commit(c));
      assert forall p :: p in c.parents ==> Rank(p) < Rank(o) by {
        forall p | p in c.parents
          ensures Rank(p) < Rank(o)
        {
          RefsRankBelow(Commit(c), p);
        }
      }
      c.parents
    case None => []
  }

  lemma PreimageSound(o: Oid)
    ensures Preimage(o).Some? ==> Sha(Preimage(o).value) == o
  {
  }

  /** The id of the tree a commit records. */
  ghost function TreeOf(o: Oid): Oid {
    match CommitAt(o)
    case Some(c) => c.tree
    case None => []
  }

  ghost function FilesOf(tree: Oid): map<Name, Oid> {
    match Preimage(tree)
    case Some(Tree(files, _)) => files
    case _ => map[]
  }

  ghost function DirsOf(tree: Oid): (dirs: map<Name, Oid>)
    ensures forall n :: n in dirs ==> Rank(dirs[n]) < Rank(tree)
  {
    match Preimage(tree)
    case Some(Tree(files, dirs)) =>
      PreimageSound(tree);
      assert forall n :: n in dirs ==> Rank(dirs[n]) < Rank(tree) by {
        forall n | n in dirs
          ensures Rank(dirs[n]) < Rank(tree)
        {
          assert dirs[n] in Refs(Tree(files, dirs));
          RefsRankBelow(Tree(files, dirs), dirs[n]);
        }
      }
      dirs
    case _ => map[]
  }

  ghost function BlobOf(o: Oid): Bytes {
    match Preimage(o)
    case Some(Blob(content)) => content
    case _ => []
  }

  // ---- A concrete hash of this kind exists ----
  // Each encoder writes its self-delimiting fields in front of `rest`: nothing is lost, and a
  // reference is shorter than the object that holds it.

  function Field(x: seq<nat>, rest: seq<nat>): seq<nat> {
    [|x|] + x + rest
  }

  function Codes(s: string): seq<nat> {
    seq(|s|, i requires 0 <= i < |s| => s[i] as nat)
  }

  function EncodeList(l: seq<Oid>, rest: seq<nat>): seq<nat> {
    if l == [] then [0] + rest else [1] + Field(l[0], EncodeList(l[1..], rest))
  }

  /** The first of some strings in code-point order, which is the byte order of their UTF-8. */
  function First(names: set<string>): (first: string)
    requires names != {}
    ensures first in names && forall n :: n in names && n != first ==> Less(Codes(first), Codes(n))
  {
    var codes := set n | n in names :: Codes(n);
    assert codes != {} by {
      var n :| n in names;
      assert Codes(n) in codes;
    }
    CodesInjective();
    var first :| first in names && Codes(first) == Least(codes);
    first
  }

  function FirstName(names: set<Name>): (first: Name)
    requires names != {}
    ensures first in names
  {
    First(names)
  }

  function EncodeMap(m: map<Name, Oid>, rest: seq<nat>): seq<nat>
    decreases |m|
  {
    if m.Keys == {} then [0] + rest
    else
      var k := FirstName(m.Keys);
      [1] + Field(Codes(k), Field(m[k], EncodeMap(m - {k}, rest)))
  }

  function EncodeAuthor(a: Author, rest: seq<nat>): seq<nat> {
    match a
    case FoldAuthor => [0] + rest
    case NodeAuthor(node) => [1] + Field(node, rest)
  }

  function EncodeMessage(m: Message): seq<nat> {
    match m
    case Text(text) => [0] + Codes(text)
    case Edit(subject, counter, node, readds, signature) =>
      [1, counter] + Field(Codes(subject), Field(node, EncodeList(readds, signature)))
  }

  function Encode(obj: GitObject): seq<nat> {
    match obj
    case Blob(content) => [0] + content
    case Tree(files, dirs) => [1] + EncodeMap(files, EncodeMap(dirs, []))
    case Commit(c) =>
      [2, c.authorTime, c.committerTime] +
      Field(c.tree, EncodeList(c.parents, EncodeAuthor(c.author, EncodeAuthor(c.committer, EncodeMessage(c.message)))))
  }

  function EncodeFn(): GitObject -> Oid {
    obj => Encode(obj)
  }

  lemma CodesInjective()
    ensures forall a, b :: Codes(a) == Codes(b) ==> a == b
  {
    forall a, b | Codes(a) == Codes(b)
      ensures a == b
    {
      assert |a| == |Codes(a)| == |b|;
      forall i | 0 <= i < |a|
        ensures a[i] == b[i]
      {
        assert Codes(a)[i] == a[i] as nat && Codes(b)[i] == b[i] as nat;
      }
    }
  }

  lemma HeadSplits(s: nat, x: seq<nat>, t: nat, y: seq<nat>)
    requires [s] + x == [t] + y
    ensures s == t && x == y
  {
    assert ([s] + x)[0] == s && ([t] + y)[0] == t;
    assert ([s] + x)[1..] == x && ([t] + y)[1..] == y;
  }

  lemma FieldSplits(a: seq<nat>, x: seq<nat>, b: seq<nat>, y: seq<nat>)
    requires Field(a, x) == Field(b, y)
    ensures a == b && x == y
  {
    assert Field(a, x)[0] == |a| && Field(b, y)[0] == |b|;
    assert Field(a, x)[1..][..|a|] == a && Field(b, y)[1..][..|b|] == b;
    assert Field(a, x)[1..][|a|..] == x && Field(b, y)[1..][|b|..] == y;
  }

  lemma {:induction false} ListSplits(a: seq<Oid>, x: seq<nat>, b: seq<Oid>, y: seq<nat>)
    requires EncodeList(a, x) == EncodeList(b, y)
    ensures a == b && x == y
  {
    var s := if a == [] then x else Field(a[0], EncodeList(a[1..], x));
    var t := if b == [] then y else Field(b[0], EncodeList(b[1..], y));
    HeadSplits(if a == [] then 0 else 1, s, if b == [] then 0 else 1, t);
    if a != [] {
      FieldSplits(a[0], EncodeList(a[1..], x), b[0], EncodeList(b[1..], y));
      ListSplits(a[1..], x, b[1..], y);
      assert a == [a[0]] + a[1..] && b == [b[0]] + b[1..];
    }
  }

  lemma {:induction false} MapSplits(a: map<Name, Oid>, x: seq<nat>, b: map<Name, Oid>, y: seq<nat>)
    requires EncodeMap(a, x) == EncodeMap(b, y)
    ensures a == b && x == y
    decreases |a|
  {
    hide Field, Codes, FirstName, EncodeMap;
    EncodeMapIs(a, x);
    EncodeMapIs(b, y);
    if a.Keys == {} || b.Keys == {} {
      HeadSplits(0, x, 0, y);
      assert a == map[] && b == map[];
    } else {
      var j, k := FirstName(a.Keys), FirstName(b.Keys);
      var u, v := EncodeMap(a - {j}, x), EncodeMap(b - {k}, y);
      HeadSplits(1, Field(Codes(j), Field(a[j], u)), 1, Field(Codes(k), Field(b[k], v)));
      FieldSplits(Codes(j), Field(a[j], u), Codes(k), Field(b[k], v));
      CodesInjective();
      FieldSplits(a[j], u, b[k], v);
      MapSplits(a - {j}, x, b - {k}, y);
      PutsBack(a, j);
      PutsBack(b, k);
    }
  }

  lemma EncodeMapIs(m: map<Name, Oid>, rest: seq<nat>)
    ensures EncodeMap(m, rest) ==
      if m.Keys == {} then [0] + rest
      else var k := FirstName(m.Keys); [1] + Field(Codes(k), Field(m[k], EncodeMap(m - {k}, rest)))
    ensures EncodeMap(m, rest)[0] == if m.Keys == {} then 0 else 1
  {
    hide Field, Codes, FirstName;
  }

  lemma PutsBack(m: map<Name, Oid>, k: Name)
    requires k in m
    ensures m == (m - {k})[k := m[k]]
  {
  }

  lemma AuthorSplits(a: Author, x: seq<nat>, b: Author, y: seq<nat>)
    requires EncodeAuthor(a, x) == EncodeAuthor(b, y)
    ensures a == b && x == y
  {
    assert EncodeAuthor(a, x)[0] == EncodeAuthor(b, y)[0];
    if a.NodeAuthor? {
      HeadSplits(1, Field(a.node, x), 1, Field(b.node, y));
      FieldSplits(a.node, x, b.node, y);
    } else {
      HeadSplits(0, x, 0, y);
    }
  }

  lemma MessageInjective(a: Message, b: Message)
    requires EncodeMessage(a) == EncodeMessage(b)
    ensures a == b
  {
    assert EncodeMessage(a)[0] == EncodeMessage(b)[0];
    CodesInjective();
    if a.Text? {
      HeadSplits(0, Codes(a.text), 0, Codes(b.text));
    } else {
      var u := Field(a.node, EncodeList(a.readds, a.signature));
      var v := Field(b.node, EncodeList(b.readds, b.signature));
      assert EncodeMessage(a)[1] == a.counter && EncodeMessage(b)[1] == b.counter;
      assert EncodeMessage(a)[2..] == Field(Codes(a.subject), u);
      assert EncodeMessage(b)[2..] == Field(Codes(b.subject), v);
      FieldSplits(Codes(a.subject), u, Codes(b.subject), v);
      FieldSplits(a.node, EncodeList(a.readds, a.signature), b.node, EncodeList(b.readds, b.signature));
      ListSplits(a.readds, a.signature, b.readds, b.signature);
    }
  }

  lemma CommitInjective(a: CommitObj, b: CommitObj)
    requires Encode(Commit(a)) == Encode(Commit(b))
    ensures a == b
  {
    var a3, b3 := EncodeAuthor(a.committer, EncodeMessage(a.message)), EncodeAuthor(b.committer, EncodeMessage(b.message));
    var a2, b2 := EncodeAuthor(a.author, a3), EncodeAuthor(b.author, b3);
    var a1, b1 := EncodeList(a.parents, a2), EncodeList(b.parents, b2);
    var e, f := Encode(Commit(a)), Encode(Commit(b));
    assert e[1] == a.authorTime && e[2] == a.committerTime && f[1] == b.authorTime && f[2] == b.committerTime;
    assert e[3..] == Field(a.tree, a1);
    assert f[3..] == Field(b.tree, b1);
    FieldSplits(a.tree, a1, b.tree, b1);
    ListSplits(a.parents, a2, b.parents, b2);
    AuthorSplits(a.author, a3, b.author, b3);
    AuthorSplits(a.committer, EncodeMessage(a.message), b.committer, EncodeMessage(b.message));
    MessageInjective(a.message, b.message);
  }

  lemma EncodeInjective(a: GitObject, b: GitObject)
    requires Encode(a) == Encode(b)
    ensures a == b
  {
    assert Encode(a)[0] == Encode(b)[0];
    match a
    case Blob(content) =>
      HeadSplits(0, content, 0, b.content);
    case Tree(files, dirs) =>
      HeadSplits(1, EncodeMap(files, EncodeMap(dirs, [])), 1, EncodeMap(b.files, EncodeMap(b.dirs, [])));
      MapSplits(files, EncodeMap(dirs, []), b.files, EncodeMap(b.dirs, []));
      MapSplits(dirs, [], b.dirs, []);
    case Commit(c) =>
      CommitInjective(c, b.commit);
  }

  lemma {:induction false} ListHoldsRefs(l: seq<Oid>, rest: seq<nat>)
    ensures |rest| < |EncodeList(l, rest)|
    ensures forall ref :: ref in l ==> |ref| < |EncodeList(l, rest)|
  {
    if l != [] {
      ListHoldsRefs(l[1..], rest);
    }
  }

  lemma {:induction false} MapHoldsRefs(m: map<Name, Oid>, rest: seq<nat>)
    ensures |rest| < |EncodeMap(m, rest)|
    ensures forall n :: n in m ==> |m[n]| < |EncodeMap(m, rest)|
    decreases |m|
  {
    if m.Keys != {} {
      var k := FirstName(m.Keys);
      MapHoldsRefs(m - {k}, rest);
      forall n | n in m
        ensures |m[n]| < |EncodeMap(m, rest)|
      {
        assert n == k || (m - {k})[n] == m[n];
      }
    }
  }

  lemma EncodeIsGood()
    ensures GoodHash(EncodeFn())
  {
    forall a, b | EncodeFn()(a) == EncodeFn()(b)
      ensures a == b
    {
      EncodeInjective(a, b);
    }
    var rank: Oid -> nat := o => |o|;
    forall obj, ref | ref in Refs(obj)
      ensures rank(ref) < rank(EncodeFn()(obj))
    {
      match obj
      case Blob(_) =>
      case Tree(files, dirs) =>
        MapHoldsRefs(files, EncodeMap(dirs, []));
        MapHoldsRefs(dirs, []);
      case Commit(c) =>
        ListHoldsRefs(c.parents, EncodeAuthor(c.author, EncodeAuthor(c.committer, EncodeMessage(c.message))));
    }
    assert Ranks(EncodeFn(), rank);
  }
}
