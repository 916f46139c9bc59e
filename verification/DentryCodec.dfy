/** Directory entries as bytes: names terminated by NUL, each followed by a 64-bit inode pointer,
    compressed, behind a signature. */
module DentryCodec {
  import opened Bytes

  type Name = seq<byte>

  const MAGIC := 0xCFADBEEF20251216

  /** The compression library, as far as it matters here: how many bytes come out is bounded by how many
      go in. */
  datatype Compression =
    Compression(pack: seq<byte> -> seq<byte>, unpack: seq<byte> -> seq<byte>, bound: nat -> nat)
  {
    ghost predicate RoundTrips() {
      forall x :: unpack(pack(x)) == x && 0 < |pack(x)| <= bound(|x|)
    }
  }

  predicate NulFree(name: Name) {
    forall i :: 0 <= i < |name| ==> name[i] != 0
  }

  datatype Entry = Entry(name: Name, inode: nat)

  function EntryBytes(e: Entry): seq<byte> {
    e.name + [0] + WordBytes(e.inode)
  }

  function Serialize(es: seq<Entry>): seq<byte> {
    if es == [] then [] else EntryBytes(es[0]) + Serialize(es[1..])
  }

  /** How many bytes the entries of these names take, whatever they point to. */
  ghost function NamesLength(names: set<Name>): nat {
    if names == {} then 0
    else
      var name :| name in names;
      |name| + 1 + WORD + NamesLength(names - {name})
  }

  lemma NoNames()
    ensures NamesLength({}) == 0
  {
  }

  /** The order of the names does not matter. */
  lemma {:induction false} OneNameLess(names: set<Name>, name: Name)
    requires name in names
    ensures NamesLength(names) == |name| + 1 + WORD + NamesLength(names - {name})
    decreases |names|
  {
    var first :| first in names && NamesLength(names) == |first| + 1 + WORD + NamesLength(names - {first});
    if first != name {
      OneNameLess(names - {first}, name);
      OneNameLess(names - {name}, first);
      assert names - {first} - {name} == names - {name} - {first};
    }
  }

  lemma EntryLength(e: Entry)
    ensures |EntryBytes(e)| == |e.name| + 1 + WORD
  {
  }

  /** The map that a list of entries stands for. The first entry of a name wins. */
  function MapOf(es: seq<Entry>): map<Name, nat> {
    if es == [] then map[]
    else
      var m := MapOf(es[1..]);
      m[es[0].name := es[0].inode]
  }

  /** The parser's state: the entries so far, and a name or a pointer being collected. */
  datatype Parser = Parser(entries: map<Name, nat>, name: Name, pointer: seq<byte>, inName: bool)

  const START := Parser(map[], [], [], true)

  function Feed(p: Parser, c: byte): Parser {
    if p.inName then
      if c == 0 then p.(pointer := [], inName := false) else p.(name := p.name + [c])
    else
      var pointer := p.pointer + [c];
      if |pointer| == WORD then
        Parser(if p.name in p.entries then p.entries else p.entries[p.name := FromBytes(pointer)], [], [], true)
      else p.(pointer := pointer)
  }

  function FeedAll(p: Parser, s: seq<byte>): Parser
    decreases |s|
  {
    if s == [] then p else FeedAll(Feed(p, s[0]), s[1..])
  }

  lemma {:induction false} FeedConcat(p: Parser, s: seq<byte>, t: seq<byte>)
    ensures FeedAll(p, s + t) == FeedAll(FeedAll(p, s), t)
    decreases |s|
  {
    if s == [] {
      assert s + t == t;
    } else {
      assert (s + t)[0] == s[0] && (s + t)[1..] == s[1..] + t;
      FeedConcat(Feed(p, s[0]), s[1..], t);
    }
  }

  /** The bytes of a name are collected as they come. */
  lemma {:induction false} FeedName(p: Parser, name: Name)
    requires p.inName && NulFree(name)
    ensures FeedAll(p, name) == p.(name := p.name + name)
    decreases |name|
  {
    if name == [] {
      assert p.name + name == p.name;
    } else {
      FeedName(Feed(p, name[0]), name[1..]);
      assert p.name + [name[0]] + name[1..] == p.name + name;
    }
  }

  /** The bytes of a pointer are counted, so zero bytes in it do not matter. */
  lemma {:induction false} FeedPointer(p: Parser, s: seq<byte>)
    requires !p.inName && |p.pointer| + |s| == WORD && |s| > 0
    ensures var w := FromBytes(p.pointer + s);
            FeedAll(p, s) == Parser(if p.name in p.entries then p.entries else p.entries[p.name := w], [], [], true)
    decreases |s|
  {
    assert (p.pointer + [s[0]]) + s[1..] == p.pointer + s;
    if |s| == 1 {
      assert s[1..] == [] && p.pointer + s == p.pointer + [s[0]];
    } else {
      FeedPointer(Feed(p, s[0]), s[1..]);
    }
  }

  lemma FeedEntry(m: map<Name, nat>, e: Entry)
    requires NulFree(e.name) && e.inode < TWO_64
    ensures FeedAll(START.(entries := m), EntryBytes(e))
              == START.(entries := if e.name in m then m else m[e.name := e.inode])
  {
    var p := START.(entries := m);
    var w := WordBytes(e.inode);
    FeedConcat(p, e.name + [0], w);
    FeedConcat(p, e.name, [0]);
    FeedName(p, e.name);
    assert [] + e.name == e.name;
    var q := p.(name := e.name);
    assert FeedAll(q, [0]) == FeedAll(Feed(q, 0), [0][1..]);
    FeedPointer(q.(inName := false), w);
    Pow256Word();
    FromToBytes(e.inode, WORD);
    assert [] + w == w;
  }

  /** The offset at which entries start is stored at the front, unless nothing was ever saved. */
  ghost predicate StartsAt(c: seq<byte>, start: nat) {
    start == 0 || (WORD <= start < TWO_64 && WORD <= |c| && GetWord(c, 0) == start)
  }

  ghost predicate EncodableMap(m: map<Name, nat>) {
    forall name :: name in m ==> NulFree(name) && m[name] < TWO_64
  }

  predicate Encodable(es: seq<Entry>) {
    forall i :: 0 <= i < |es| ==> NulFree(es[i].name) && es[i].inode < TWO_64
  }

  /** Entries of names that are there already are passed over. */
  lemma {:induction false} FeedEntries(m: map<Name, nat>, es: seq<Entry>)
    requires Encodable(es)
    ensures FeedAll(START.(entries := m), Serialize(es)) == START.(entries := MapOf(es) + m)
    decreases |es|
  {
    hide Feed, EntryBytes;
    if es == [] {
      assert MapOf(es) + m == m;
    } else {
      var e := es[0];
      var m1 := if e.name in m then m else m[e.name := e.inode];
      FeedConcat(START.(entries := m), EntryBytes(e), Serialize(es[1..]));
      FeedEntry(m, e);
      FeedEntries(m1, es[1..]);
      assert MapOf(es[1..]) + m1 == MapOf(es) + m;
    }
  }

  /** Parsing undoes serializing, for every list of NUL-free names; of several entries with one name the
      first one counts. */
  lemma ParseSerialize(es: seq<Entry>)
    requires Encodable(es)
    ensures FeedAll(START, Serialize(es)).entries == MapOf(es)
  {
    FeedEntries(map[], es);
    assert MapOf(es) + map[] == MapOf(es);
  }

  /** The first entry of each name is what the map holds. */
  lemma {:induction false} FirstCounts(es: seq<Entry>, i: nat)
    requires i < |es| && forall j: nat :: j < i ==> es[j].name != es[i].name
    ensures es[i].name in MapOf(es) && MapOf(es)[es[i].name] == es[i].inode
    decreases |es|
  {
    if i != 0 {
      assert es[1..][i - 1] == es[i] && forall j: nat :: j < i - 1 ==> es[1..][j] == es[j + 1];
      FirstCounts(es[1..], i - 1);
    }
  }

  /** What a directory's bytes say: where its entries start, and the entries. Anything that does
      not carry the signature reads as an empty directory. */
  function ReadDir(c: seq<byte>, z: Compression): map<Name, nat> {
    if |c| < WORD then map[]
    else
      var start := GetWord(c, 0);
      if |c| < start + WORD || c[start..start + WORD] != WordBytes(MAGIC) then map[]
      else FeedAll(START, z.unpack(c[start + WORD..])).entries
  }

  /** What is no directory, or one that was never saved, reads as an empty one. */
  lemma UnsavedReadsEmpty(c: seq<byte>, z: Compression)
    ensures |c| < 8 ==> ReadDir(c, z) == map[]
    ensures 8 <= |c| && |c| < GetWord(c, 0) + 8 ==> ReadDir(c, z) == map[]
    ensures 8 <= |c| && GetWord(c, 0) + 8 <= |c| && GetWord(c, GetWord(c, 0)) != 0xCFADBEEF20251216 ==>
              ReadDir(c, z) == map[]
  {
    if 8 <= |c| && GetWord(c, 0) + 8 <= |c| {
      var start := GetWord(c, 0);
      if c[start..start + WORD] == WordBytes(MAGIC) {
        GetWordBytes(c, start, MAGIC);
      }
    }
  }

  /** The bytes of a saved directory. */
  ghost predicate SavedDir(c: seq<byte>, start: nat, es: seq<Entry>, z: Compression) {
    && WORD <= start < TWO_64 && WORD <= |c|
    && GetWord(c, 0) == start
    && if es == [] then |c| == start
       else |c| >= start + WORD && c[start..] == WordBytes(MAGIC) + z.pack(Serialize(es))
  }

  /** The codec round trip: saving any map and reading it back gives the same map, whatever lies
      before the entries. */
  lemma SavedDirReads(c: seq<byte>, start: nat, es: seq<Entry>, z: Compression)
    requires z.RoundTrips() && SavedDir(c, start, es, z) && Encodable(es)
    ensures ReadDir(c, z) == MapOf(es)
  {
    if es != [] {
      var m := WordBytes(MAGIC);
      assert c[start..start + WORD] == c[start..][..WORD] == m;
      assert c[start + WORD..] == c[start..][WORD..] == z.pack(Serialize(es));
      ParseSerialize(es);
    }
  }
}
