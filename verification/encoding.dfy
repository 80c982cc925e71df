/** The canonical encoding of a tree, the byte string its identity hashes, and a decoder for it. */
module Encoding {
  import opened Protocol
  import opened Trees
  import opened Paths

  const DIGEST_BYTES: nat := 32
  const WORD: nat := 4
  const LONG: nat := 8

  // ---- Fixed-width big-endian numbers ------------------------------------------

  function Power(width: nat): (r: nat)
    ensures r > 0
  {
    if width == 0 then 1 else 256 * Power(width - 1)
  }

  /** The low `width` bytes of `n`, most significant first. */
  function BigEndian(width: nat, n: nat): (r: Bytes)
    ensures |r| == width
  {
    if width == 0 then [] else BigEndian(width - 1, n / 256) + [(n % 256) as char]
  }

  function Number(bytes: Bytes): nat {
    if bytes == [] then 0 else 256 * Number(bytes[..|bytes| - 1]) + bytes[|bytes| - 1] as nat
  }

  lemma {:induction false} NumberOfBigEndian(width: nat, n: nat)
    requires n < Power(width)
    ensures Number(BigEndian(width, n)) == n
  {
    if width > 0 {
      NumberOfBigEndian(width - 1, n / 256);
      assert BigEndian(width, n)[..width - 1] == BigEndian(width - 1, n / 256);
    }
  }

  // ---- Records --------------------------------------------------------------------

  datatype Body = DirectoryBody | FileBody(size: nat, digest: Bytes) | LinkBody(target: Bytes)

  /** What the encoding holds of one entry. */
  datatype Record = Record(path: Bytes, mode: nat, uid: nat, gid: nat, mtime: nat, body: Body)

  predicate Fits(r: Record) {
    && |r.path| < Power(WORD) && r.mode < Power(WORD) && r.uid < Power(WORD) && r.gid < Power(WORD)
       && r.mtime < Power(WORD)
    && (r.body.FileBody? ==> r.body.size < Power(LONG) && |r.body.digest| == DIGEST_BYTES)
    && (r.body.LinkBody? ==> |r.body.target| < Power(WORD))
  }

  function Counted(value: Bytes): Bytes {
    BigEndian(WORD, |value|) + value
  }

  function KindByte(body: Body): byte {
    match body
    case DirectoryBody => 'D'
    case FileBody(_, _) => 'F'
    case LinkBody(_) => 'L'
  }

  function EncodeBody(body: Body): Bytes {
    match body
    case DirectoryBody => []
    case FileBody(size, digest) => BigEndian(LONG, size) + digest
    case LinkBody(target) => Counted(target)
  }

  function EncodeMetadata(r: Record): (b: Bytes)
    ensures |b| == 16
  {
    BigEndian(WORD, r.mode) + BigEndian(WORD, r.uid) + BigEndian(WORD, r.gid) + BigEndian(WORD, r.mtime)
  }

  function EncodeRecord(r: Record): (b: Bytes)
    ensures |b| > 0
  {
    [KindByte(r.body)] + (Counted(r.path) + (EncodeMetadata(r) + EncodeBody(r.body)))
  }

  function EncodeRecords(records: seq<Record>): Bytes {
    if records == [] then [] else EncodeRecord(records[0]) + EncodeRecords(records[1..])
  }

  // ---- Decoding ---------------------------------------------------------------------

  /** A value read off the front, and what follows it. */
  datatype Parsed<T> = Parsed(value: T, rest: Bytes)

  function ReadCounted(bytes: Bytes): Option<Parsed<Bytes>> {
    if |bytes| < 4 then None
    else
      var n, tail := Number(bytes[..4]), bytes[4..];
      if |tail| < n then None else Some(Parsed(tail[..n], tail[n..]))
  }

  function ReadBody(kind: byte, bytes: Bytes): Option<Parsed<Body>> {
    if kind == 'D' then Some(Parsed(DirectoryBody, bytes))
    else if kind == 'F' then
      if |bytes| < 40 then None else Some(Parsed(FileBody(Number(bytes[..8]), bytes[8..40]), bytes[40..]))
    else if kind == 'L' then
      var target := ReadCounted(bytes);
      if target.None? then None else Some(Parsed(LinkBody(target.value.value), target.value.rest))
    else None
  }

  function ReadRecord(bytes: Bytes): Option<Parsed<Record>> {
    if bytes == [] then None
    else
      var path := ReadCounted(bytes[1..]);
      if path.None? || |path.value.rest| < 16 then None
      else
        var m := path.value.rest;
        var body := ReadBody(bytes[0], m[16..]);
        if body.None? then None
        else Some(Parsed(Record(path.value.value, Number(m[..4]), Number(m[4..8]), Number(m[8..12]), Number(m[12..16]),
                                body.value.value), body.value.rest))
  }

  function Decode(bytes: Bytes): Option<seq<Record>>
    decreases |bytes|
  {
    if bytes == [] then Some([])
    else
      var first := ReadRecord(bytes);
      if first.None? || |first.value.rest| >= |bytes| then None
      else
        var others := Decode(first.value.rest);
        if others.None? then None else Some([first.value.value] + others.value)
  }

  lemma ReadCountedBack(value: Bytes, rest: Bytes)
    requires |value| < Power(WORD)
    ensures ReadCounted(Counted(value) + rest) == Some(Parsed(value, rest))
  {
    var bytes := Counted(value) + rest;
    NumberOfBigEndian(WORD, |value|);
    assert bytes[..4] == BigEndian(WORD, |value|);
    assert bytes[4..] == value + rest;
  }

  lemma ReadBodyBack(body: Body, rest: Bytes)
    requires body.FileBody? ==> body.size < Power(LONG) && |body.digest| == DIGEST_BYTES
    requires body.LinkBody? ==> |body.target| < Power(WORD)
    ensures ReadBody(KindByte(body), EncodeBody(body) + rest) == Some(Parsed(body, rest))
  {
    match body
    case DirectoryBody =>
      assert EncodeBody(body) + rest == rest;
    case FileBody(size, digest) =>
      var bytes := EncodeBody(body) + rest;
      NumberOfBigEndian(LONG, size);
      assert bytes[..8] == BigEndian(LONG, size) && bytes[8..40] == digest && bytes[40..] == rest;
    case LinkBody(target) =>
      ReadCountedBack(target, rest);
  }

  lemma MetadataBack(r: Record, rest: Bytes)
    requires Fits(r)
    ensures var m := EncodeMetadata(r) + rest;
            && Number(m[..4]) == r.mode && Number(m[4..8]) == r.uid && Number(m[8..12]) == r.gid
            && Number(m[12..16]) == r.mtime && m[16..] == rest
  {
    hide BigEndian, Number, Power;
    NumberOfBigEndian(WORD, r.mode);
    NumberOfBigEndian(WORD, r.uid);
    NumberOfBigEndian(WORD, r.gid);
    NumberOfBigEndian(WORD, r.mtime);
    FourWords(BigEndian(WORD, r.mode), BigEndian(WORD, r.uid), BigEndian(WORD, r.gid), BigEndian(WORD, r.mtime), rest);
  }

  lemma FourWords(a: Bytes, b: Bytes, c: Bytes, d: Bytes, rest: Bytes)
    requires |a| == |b| == |c| == |d| == 4
    ensures var m := a + b + c + d + rest;
            m[..4] == a && m[4..8] == b && m[8..12] == c && m[12..16] == d && m[16..] == rest
  {
    var m := a + b + c + d + rest;
    assert m == a + (b + c + d + rest) && m == (a + b) + (c + d + rest) && m == (a + b + c) + (d + rest);
  }

  lemma ReadRecordBack(r: Record, rest: Bytes)
    requires Fits(r)
    ensures ReadRecord(EncodeRecord(r) + rest) == Some(Parsed(r, rest))
  {
    var bytes := EncodeRecord(r) + rest;
    var tail := EncodeBody(r.body) + rest;
    var m := EncodeMetadata(r) + tail;
    assert bytes[0] == KindByte(r.body);
    assert bytes[1..] == Counted(r.path) + m;
    ReadCountedBack(r.path, m);
    MetadataBack(r, tail);
    ReadBodyBack(r.body, rest);
  }

  /** The encoding decodes to exactly the records it was made from. */
  lemma {:induction false} DecodeEncode(records: seq<Record>)
    requires forall i | 0 <= i < |records| :: Fits(records[i])
    ensures Decode(EncodeRecords(records)) == Some(records)
  {
    hide EncodeRecord, ReadRecord, Fits, Decode;
    if records != [] {
      var first, rest := EncodeRecord(records[0]), EncodeRecords(records[1..]);
      DecodeEncode(records[1..]);
      ReadRecordBack(records[0], rest);
      DecodeFirst(first + rest, records[0], rest, records[1..]);
      assert [records[0]] + records[1..] == records;
    } else {
      DecodeNothing();
    }
  }

  lemma DecodeNothing()
    ensures Decode([]) == Some([])
  {}

  lemma DecodeFirst(bytes: Bytes, r: Record, rest: Bytes, others: seq<Record>)
    requires ReadRecord(bytes) == Some(Parsed(r, rest)) && |rest| < |bytes| && Decode(rest) == Some(others)
    ensures Decode(bytes) == Some([r] + others)
  {}

  // ---- Trees --------------------------------------------------------------------------

  predicate Before(a: Bytes, b: Bytes) {
    b != [] && (a == [] || a[0] < b[0] || (a[0] == b[0] && Before(a[1..], b[1..])))
  }

  /** The order of bytes: a proper beginning comes before what it begins, and otherwise the first byte that
      differs decides. */
  lemma {:induction false} BeforeExact(a: Bytes, b: Bytes)
    ensures Before(a, b) <==> a < b || exists i | 0 <= i < |a| && i < |b| :: a[..i] == b[..i] && a[i] < b[i]
    decreases |a|
  {
    if a != [] && b != [] {
      assert a[..0] == b[..0];
      if a[0] == b[0] {
        var x, y := a[1..], b[1..];
        BeforeExact(x, y);
        assert a == [a[0]] + x && b == [b[0]] + y;
        assert x < y <==> a < b;
        forall i | 0 <= i < |x| && i < |y|
          ensures a[..i + 1] == [a[0]] + x[..i] && b[..i + 1] == [b[0]] + y[..i]
        {}
        assert forall i | 0 <= i < |x| && i < |y| ::
            (x[..i] == y[..i] && x[i] < y[i]) ==> a[..i + 1] == b[..i + 1] && a[i + 1] < b[i + 1];
        assert forall i | 0 < i < |a| && i < |b| && a[..i] == b[..i] && a[i] < b[i] ::
            x[..i - 1] == a[..i][1..] && y[..i - 1] == b[..i][1..] && x[i - 1] < y[i - 1];
      } else {
        assert forall i | 0 < i < |a| && i < |b| && a[..i] == b[..i] :: a[..i][0] == b[..i][0];
      }
    }
  }

  lemma {:induction false} BeforeIsStrict(a: Bytes, b: Bytes)
    requires Before(a, b)
    ensures !Before(b, a) && a != b
  {
    if a != [] && a[0] == b[0] { BeforeIsStrict(a[1..], b[1..]); }
  }

  predicate Ascending(keys: seq<Path>) {
    forall i, j | 0 <= i < j < |keys| :: Before(Rendered(keys[i]), Rendered(keys[j]))
  }

  /** `keys` goes through the tree in byte order of its paths. */
  ghost predicate Lists(keys: seq<Path>, tree: Tree) {
    Ascending(keys) && Covers(keys, tree)
  }

  ghost predicate Covers(keys: seq<Path>, tree: Tree) {
    forall p :: p in keys <==> p in tree
  }

  /** There is one such order, so the encoding depends on the tree alone. */
  lemma {:induction false} OneListing(one: seq<Path>, two: seq<Path>)
    requires Ascending(one) && Ascending(two) && forall p :: p in one <==> p in two
    ensures one == two
  {
    assert one != [] ==> one[0] in two;
    assert two != [] ==> two[0] in one;
    if one != [] && two != [] {
      FirstsAgree(one, two);
      forall p ensures p in one[1..] <==> p in two[1..] {
        InTail(one, p);
        InTail(two, p);
      }
      OneListing(one[1..], two[1..]);
      assert one == [one[0]] + one[1..] && two == [two[0]] + two[1..];
    }
  }

  lemma {:induction false} BeforeIsTotal(a: Bytes, b: Bytes)
    requires a != b
    ensures Before(a, b) || Before(b, a)
  {
    if a != [] && b != [] && a[0] == b[0] {
      assert a == [a[0]] + a[1..] && b == [b[0]] + b[1..];
      BeforeIsTotal(a[1..], b[1..]);
    }
  }

  lemma {:induction false} BeforeChains(a: Bytes, b: Bytes, c: Bytes)
    requires Before(a, b) && Before(b, c)
    ensures Before(a, c)
  {
    if a != [] && a[0] == b[0] == c[0] { BeforeChains(a[1..], b[1..], c[1..]); }
  }

  /** A new path has its place in the order. */
  lemma {:induction false} Inserted(keys: seq<Path>, p: Path) returns (more: seq<Path>)
    requires Ascending(keys) && p !in keys && NormalPath(p) && forall q | q in keys :: NormalPath(q)
    ensures Ascending(more) && forall q :: q in more <==> q in keys || q == p
  {
    more := [p];
    if keys != [] {
      var n := |keys| - 1;
      var last := keys[n];
      PiecesOfRendered(p);
      PiecesOfRendered(last);
      BeforeIsTotal(Rendered(last), Rendered(p));
      if Before(Rendered(last), Rendered(p)) {
        more := keys + [p];
        forall i | 0 <= i < n ensures Before(Rendered(keys[i]), Rendered(p)) {
          BeforeChains(Rendered(keys[i]), Rendered(last), Rendered(p));
        }
      } else {
        var init := Inserted(keys[..n], p);
        more := init + [last];
        assert keys == keys[..n] + [last];
        forall i | 0 <= i < |init| ensures Before(Rendered(init[i]), Rendered(last)) {
          assert init[i] in init;
          if init[i] != p {
            var j :| 0 <= j < n && keys[j] == init[i];
          }
        }
      }
    }
  }

  /** Every tree of normal paths has its listing. */
  lemma {:induction false} EveryTreeIsListed(tree: Tree) returns (keys: seq<Path>)
    requires forall p | p in tree :: NormalPath(p)
    ensures Lists(keys, tree)
    decreases |tree|
  {
    if tree == map[] {
      keys := [];
    } else {
      var p :| p in tree;
      var rest := tree - {p};
      assert tree.Keys == rest.Keys + {p};
      assert |rest| < |tree| by { assert |rest.Keys| == |rest| && |tree.Keys| == |tree|; }
      var before := EveryTreeIsListed(rest);
      keys := Inserted(before, p);
    }
  }

  lemma InTail(keys: seq<Path>, p: Path)
    requires Ascending(keys) && keys != []
    ensures p in keys[1..] <==> p in keys && p != keys[0]
  {
    if p in keys[1..] {
      var i :| 0 <= i < |keys[1..]| && keys[1..][i] == p;
      assert keys[i + 1] == p;
      BeforeIsStrict(Rendered(keys[0]), Rendered(p));
    }
  }

  lemma FirstsAgree(one: seq<Path>, two: seq<Path>)
    requires one != [] && two != [] && Ascending(one) && Ascending(two) && forall p :: p in one <==> p in two
    ensures one[0] == two[0]
  {
    assert one[0] in two && two[0] in one;
    var i :| 0 <= i < |two| && two[i] == one[0];
    var j :| 0 <= j < |one| && one[j] == two[0];
    if i > 0 && j > 0 {
      BeforeIsStrict(Rendered(one[0]), Rendered(two[0]));
    }
  }

  function RecordOf(path: Path, entry: Entry, sha: Bytes -> Bytes): Record {
    Record(Rendered(path), entry.mode, entry.uid, entry.gid, entry.mtime,
           match entry
           case Directory(_, _, _, _) => DirectoryBody
           case File(_, _, _, _, data) => FileBody(|data|, sha(data))
           case Symlink(_, _, _, _, target) => LinkBody(target))
  }

  function RecordsOf(keys: seq<Path>, tree: Tree, sha: Bytes -> Bytes): seq<Record>
    requires forall i | 0 <= i < |keys| :: keys[i] in tree
  {
    if keys == [] then []
    else RecordsOf(keys[..|keys| - 1], tree, sha) + [RecordOf(keys[|keys| - 1], tree[keys[|keys| - 1]], sha)]
  }

  lemma {:induction false} RecordsAt(keys: seq<Path>, tree: Tree, sha: Bytes -> Bytes)
    requires forall i | 0 <= i < |keys| :: keys[i] in tree
    ensures |RecordsOf(keys, tree, sha)| == |keys|
    ensures forall i | 0 <= i < |keys| :: RecordsOf(keys, tree, sha)[i] == RecordOf(keys[i], tree[keys[i]], sha)
  {
    if keys != [] { RecordsAt(keys[..|keys| - 1], tree, sha); }
  }

  lemma {:induction false} EncodeAppend(records: seq<Record>, last: Record)
    ensures EncodeRecords(records + [last]) == EncodeRecords(records) + EncodeRecord(last)
  {
    if records == [] {
      assert [last][1..] == [] && EncodeRecords([]) == [];
      assert records + [last] == [last];
    } else {
      assert (records + [last])[0] == records[0] && (records + [last])[1..] == records[1..] + [last];
      EncodeAppend(records[1..], last);
    }
  }

  /** One entry, field by field. */
  method EncodeEntry(path: Path, entry: Entry, sha: Bytes -> Bytes) returns (output: Bytes)
    ensures output == EncodeRecord(RecordOf(path, entry, sha))
  {
    output := [if entry.Directory? then 'D' else if entry.File? then 'F' else 'L'];
    var metadata := BigEndian(WORD, entry.mode) + BigEndian(WORD, entry.uid) + BigEndian(WORD,
        entry.gid) + BigEndian(WORD, entry.mtime);
    var body: Bytes := [];
    match entry {
      case Directory(_, _, _, _) =>
      case File(_, _, _, _, data) => body := BigEndian(LONG, |data|) + sha(data);
      case Symlink(_, _, _, _, target) => body := Counted(target);
    }
    output := output + (Counted(Rendered(path)) + (metadata + body));
  }

  lemma ListedKeys(keys: seq<Path>, tree: Tree)
    requires Lists(keys, tree)
    ensures forall i | 0 <= i < |keys| :: keys[i] in tree
  {
    assert forall i | 0 <= i < |keys| :: keys[i] in keys;
  }

  /** One record after another. */
  method EncodeKeys(tree: Tree, keys: seq<Path>, sha: Bytes -> Bytes) returns (output: Bytes)
    requires forall i | 0 <= i < |keys| :: keys[i] in tree
    ensures output == EncodeRecords(RecordsOf(keys, tree, sha))
  {
    output := [];
    for i := 0 to |keys|
      invariant output == EncodeRecords(RecordsOf(keys[..i], tree, sha))
    {
      var bytes := EncodeEntry(keys[i], tree[keys[i]], sha);
      output := output + bytes;
      assert keys[..i + 1][..i] == keys[..i];
      EncodeAppend(RecordsOf(keys[..i], tree, sha), RecordOf(keys[i], tree[keys[i]], sha));
    }
    assert keys[..|keys|] == keys;
  }

  /** The encoder, in the order in which the sorted map is walked: there is only one. */
  method Encode(tree: Tree, keys: seq<Path>, sha: Bytes -> Bytes) returns (output: Bytes)
    requires Lists(keys, tree)
    ensures forall listing | Lists(listing, tree) ::
              (forall i | 0 <= i < |listing| :: listing[i] in tree)
                && output == EncodeRecords(RecordsOf(listing, tree, sha))
  {
    hide RecordsOf, EncodeRecords, Ascending;
    ListedKeys(keys, tree);
    output := EncodeKeys(tree, keys, sha);
    forall listing | Lists(listing, tree) ensures listing == keys {
      OneListing(listing, keys);
    }
  }

  ghost predicate TreeFits(tree: Tree) {
    forall p | p in tree ::
      && NormalPath(p) && |Rendered(p)| < Power(WORD)
      && tree[p].mode < Power(WORD) && tree[p].uid < Power(WORD) && tree[p].gid < Power(WORD)
         && tree[p].mtime < Power(WORD)
      && (tree[p].File? ==> |tree[p].data| < Power(LONG))
      && (tree[p].Symlink? ==> |tree[p].target| < Power(WORD))
  }

  lemma RecordsFit(keys: seq<Path>, tree: Tree, sha: Bytes -> Bytes)
    requires Lists(keys, tree) && TreeFits(tree) && forall data :: |sha(data)| == DIGEST_BYTES
    ensures forall i | 0 <= i < |keys| :: keys[i] in tree
    ensures forall i | 0 <= i < |RecordsOf(keys, tree, sha)| :: Fits(RecordsOf(keys, tree, sha)[i])
  {
    assert forall i | 0 <= i < |keys| :: keys[i] in keys;
    RecordsAt(keys, tree, sha);
  }

  /** A record holds an entry, field by field; of a file's contents only the length and the digest. */
  predicate Holds(r: Record, path: Path, entry: Entry, sha: Bytes -> Bytes) {
    && r.path == Rendered(path) && r.mode == entry.mode && r.uid == entry.uid && r.gid == entry.gid
    && r.mtime == entry.mtime
    && match entry
       case Directory(_, _, _, _) => r.body.DirectoryBody?
       case File(_, _, _, _, data) => r.body.FileBody? && r.body.size == |data| && r.body.digest == sha(data)
       case Symlink(_, _, _, _, target) => r.body.LinkBody? && r.body.target == target
  }

  /** What the encoding of a tree decodes to: one record for each path in byte order, holding its entry. */
  lemma DecodesTo(tree: Tree, keys: seq<Path>, sha: Bytes -> Bytes)
    requires Lists(keys, tree) && TreeFits(tree) && forall data :: |sha(data)| == DIGEST_BYTES
    ensures forall i | 0 <= i < |keys| :: keys[i] in tree
    ensures var decoded := Decode(EncodeRecords(RecordsOf(keys, tree, sha)));
            && decoded.Some? && |decoded.value| == |keys|
            && forall i | 0 <= i < |keys| :: Holds(decoded.value[i], keys[i], tree[keys[i]], sha)
  {
    hide Decode, EncodeRecords, RecordsOf, Fits, Ascending;
    ListedKeys(keys, tree);
    RecordsFit(keys, tree, sha);
    RecordsAt(keys, tree, sha);
    DecodeEncode(RecordsOf(keys, tree, sha));
  }

  /** Two trees with one encoding have the same paths, and at each path the same kind, mode, owner,
      group, time and link target, and the same file length and digest. */
  lemma EncodingDetermines(t: Tree, one: seq<Path>, u: Tree, two: seq<Path>, sha: Bytes -> Bytes)
    requires Lists(one, t) && Lists(two, u) && TreeFits(t) && TreeFits(u)
    requires forall data :: |sha(data)| == DIGEST_BYTES
    requires (forall i | 0 <= i < |one| :: one[i] in t) && (forall i | 0 <= i < |two| :: two[i] in u)
    requires EncodeRecords(RecordsOf(one, t, sha)) == EncodeRecords(RecordsOf(two, u, sha))
    ensures one == two && t.Keys == u.Keys
    ensures forall p | p in t :: RecordOf(p, t[p], sha) == RecordOf(p, u[p], sha)
  {
    hide RecordsOf, RecordOf, EncodeRecords, Fits, Power, Ascending, Decode, Covers, Rendered, NormalPath;
    RecordsFit(one, t, sha);
    RecordsFit(two, u, sha);
    DecodeEncode(RecordsOf(one, t, sha));
    DecodeEncode(RecordsOf(two, u, sha));
    SameListings(t, one, u, two, sha);
  }

  lemma SameListings(t: Tree, one: seq<Path>, u: Tree, two: seq<Path>, sha: Bytes -> Bytes)
    requires Covers(one, t) && Covers(two, u)
    requires (forall i | 0 <= i < |one| :: one[i] in t && NormalPath(one[i]))
    requires (forall i | 0 <= i < |two| :: two[i] in u && NormalPath(two[i]))
    requires RecordsOf(one, t, sha) == RecordsOf(two, u, sha)
    ensures one == two && t.Keys == u.Keys
    ensures forall p | p in t :: RecordOf(p, t[p], sha) == RecordOf(p, u[p], sha)
  {
    hide RecordsOf, RecordOf, NormalPath;
    SameKeys(t, one, u, two, sha);
    forall p | p in t ensures p in u && RecordOf(p, t[p], sha) == RecordOf(p, u[p], sha) {
      assert p in one;
      SameRecords(t, u, one, sha, p);
    }
    assert forall p | p in u :: p in two && p in t;
  }

  lemma SameKeys(t: Tree, one: seq<Path>, u: Tree, two: seq<Path>, sha: Bytes -> Bytes)
    requires (forall i | 0 <= i < |one| :: one[i] in t && NormalPath(one[i]))
    requires (forall i | 0 <= i < |two| :: two[i] in u && NormalPath(two[i]))
    requires RecordsOf(one, t, sha) == RecordsOf(two, u, sha)
    ensures one == two
  {
    RecordsAt(one, t, sha);
    RecordsAt(two, u, sha);
    forall i | 0 <= i < |one| ensures one[i] == two[i] {
      assert RecordsOf(one, t, sha)[i] == RecordsOf(two, u, sha)[i];
      PiecesOfRendered(one[i]);
      PiecesOfRendered(two[i]);
    }
  }

  lemma SameRecords(t: Tree, u: Tree, keys: seq<Path>, sha: Bytes -> Bytes, p: Path)
    requires (forall i | 0 <= i < |keys| :: keys[i] in t && keys[i] in u) && p in keys
    requires RecordsOf(keys, t, sha) == RecordsOf(keys, u, sha)
    ensures RecordOf(p, t[p], sha) == RecordOf(p, u[p], sha)
  {
    RecordsAt(keys, t, sha);
    RecordsAt(keys, u, sha);
    var i :| 0 <= i < |keys| && keys[i] == p;
    assert RecordsOf(keys, t, sha)[i] == RecordsOf(keys, u, sha)[i];
  }

  /** So when the digest separates file contents, different trees never share an encoding. */
  lemma EncodingIsInjective(t: Tree, one: seq<Path>, u: Tree, two: seq<Path>, sha: Bytes -> Bytes)
    requires Lists(one, t) && Lists(two, u) && TreeFits(t) && TreeFits(u)
    requires forall data :: |sha(data)| == DIGEST_BYTES
    requires (forall i | 0 <= i < |one| :: one[i] in t) && (forall i | 0 <= i < |two| :: two[i] in u)
    requires EncodeRecords(RecordsOf(one, t, sha)) == EncodeRecords(RecordsOf(two, u, sha))
    requires forall p | p in t && p in u && t[p].File? && u[p].File?
             && sha(t[p].data) == sha(u[p].data) :: t[p].data == u[p].data
    ensures t == u
  {
    EncodingDetermines(t, one, u, two, sha);
    forall p | p in t ensures t[p] == u[p] {
      SameEntry(p, t[p], u[p], sha);
    }
  }

  lemma SameEntry(p: Path, one: Entry, two: Entry, sha: Bytes -> Bytes)
    requires RecordOf(p, one, sha) == RecordOf(p, two, sha)
    requires one.File? && two.File? && sha(one.data) == sha(two.data) ==> one.data == two.data
    ensures one == two
  {}
}
