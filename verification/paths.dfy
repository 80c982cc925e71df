/** Byte paths and component paths. The source keys its tree by byte strings; on normalized paths the
    two forms agree, so the tree may be modelled over components. */
module Paths {
  import opened Protocol
  import opened Trees

  const MAX_PATH_BYTES: nat := 1024

  function FirstSlash(raw: Bytes): (n: nat)
    ensures n <= |raw| && (n < |raw| ==> raw[n] == '/') && '/' !in raw[..n]
  {
    if raw == [] || raw[0] == '/' then 0
    else
      var n := 1 + FirstSlash(raw[1..]);
      assert raw[..n] == [raw[0]] + raw[1..][..n - 1];
      n
  }

  predicate Kept(piece: Name) {
    piece != [] && piece != "."
  }

  /** The pieces between slashes, without the empty ones and the dots. */
  function Pieces(raw: Bytes): seq<Name>
    decreases |raw|
  {
    var n := FirstSlash(raw);
    var head: seq<Name> := if Kept(raw[..n]) then [raw[..n]] else [];
    if n == |raw| then head else head + Pieces(raw[n + 1..])
  }

  /** The byte form of a path. */
  function Rendered(path: Path): Bytes {
    if path == [] then "." else Slashed(path)
  }

  function Slashed(path: Path): Bytes {
    if path == [] then "" else if |path| == 1 then path[0] else path[0] + "/" + Slashed(path[1..])
  }

  /** Normalize one archive path: refuse an empty or absolute path, a NUL byte, a `..` component or an
      over-long result. */
  function Normalize(raw: Bytes): Option<Path> {
    if raw == [] || '\0' in raw || raw[0] == '/' then None
    else
      var path := Pieces(raw);
      if ".." in path || |Rendered(path)| > MAX_PATH_BYTES then None else Some(path)
  }

  lemma {:induction false} PiecesAreKept(raw: Bytes, i: nat)
    requires i < |Pieces(raw)|
    ensures var piece := Pieces(raw)[i]; Kept(piece) && '/' !in piece && forall c | c in piece :: c in raw
    decreases |raw|
  {
    var n := FirstSlash(raw);
    var h := if Kept(raw[..n]) then 1 else 0;
    if i >= h {
      PiecesAreKept(raw[n + 1..], i - h);
    }
  }

  /** A piece without a slash is kept whole, unless it is empty or a dot. */
  lemma OnePiece(piece: Bytes)
    requires '/' !in piece
    ensures Pieces(piece) == if piece == "" || piece == "." then [] else [piece]
  {
    SlashAfter(piece, "");
    assert piece[..|piece|] == piece;
  }

  lemma FirstPiece(piece: Bytes, rest: Bytes)
    requires '/' !in piece
    ensures Pieces(piece + "/" + rest) == Pieces(piece) + Pieces(rest)
  {
    hide FirstSlash;
    var raw := piece + "/" + rest;
    SlashAfter(piece, rest);
    assert raw[..|piece|] == piece && raw[|piece| + 1..] == rest && piece[..|piece|] == piece;
  }

  /** A slash separates whatever stands on its two sides. */
  lemma {:induction false} PiecesJoin(a: Bytes, b: Bytes)
    ensures Pieces(a + "/" + b) == Pieces(a) + Pieces(b)
    decreases |a|
  {
    hide Pieces, FirstSlash;
    var n := FirstSlash(a);
    if n == |a| {
      assert a[..|a|] == a;
      FirstPiece(a, b);
    } else {
      var head, rest := a[..n], a[n + 1..];
      assert a == head + "/" + rest;
      assert a + "/" + b == head + "/" + (rest + "/" + b);
      FirstPiece(head, rest);
      FirstPiece(head, rest + "/" + b);
      PiecesJoin(rest, b);
    }
  }

  /** Pieces with slashes in between. */
  function Joined(pieces: seq<Bytes>): Bytes
    requires pieces != []
  {
    if |pieces| == 1 then pieces[0] else pieces[0] + "/" + Joined(pieces[1..])
  }

  /** Without the empty pieces and the dots. */
  function Proper(pieces: seq<Bytes>): seq<Bytes> {
    if pieces == [] then []
    else (if pieces[0] == "" || pieces[0] == "." then [] else [pieces[0]]) + Proper(pieces[1..])
  }

  /** Splitting any path gives its proper pieces, whatever they are. */
  lemma {:induction false} PiecesOfJoined(pieces: seq<Bytes>)
    requires pieces != [] && forall i | 0 <= i < |pieces| :: '/' !in pieces[i]
    ensures Pieces(Joined(pieces)) == Proper(pieces)
  {
    OnePiece(pieces[0]);
    if |pieces| == 1 {
      assert Proper(pieces[1..]) == [];
    } else {
      PiecesJoin(pieces[0], Joined(pieces[1..]));
      PiecesOfJoined(pieces[1..]);
    }
  }

  /** And every path is pieces with slashes in between. */
  lemma {:induction false} EveryPathIsJoined(raw: Bytes) returns (pieces: seq<Bytes>)
    ensures pieces != [] && (forall i | 0 <= i < |pieces| :: '/' !in pieces[i]) && Joined(pieces) == raw
    decreases |raw|
  {
    var n := FirstSlash(raw);
    assert raw[..|raw|] == raw;
    if n == |raw| {
      pieces := [raw];
    } else {
      var rest := EveryPathIsJoined(raw[n + 1..]);
      pieces := [raw[..n]] + rest;
      assert pieces[1..] == rest && raw == raw[..n] + "/" + raw[n + 1..];
    }
  }

  /** What normalizing accepts and gives, for any path: refused exactly when it is empty, absolute, holds a
      NUL or a piece `..`, or is too long without its empty pieces and dots. */
  lemma NormalizeExact(pieces: seq<Bytes>)
    requires pieces != [] && forall i | 0 <= i < |pieces| :: '/' !in pieces[i]
    ensures var raw := Joined(pieces);
            Normalize(raw) ==
            if raw != "" && raw[0] != '/' && '\0' !in raw && ".." !in pieces && |Rendered(Proper(pieces))| <= 1024
            then Some(Proper(pieces)) else None
  {
    PiecesOfJoined(pieces);
    ProperKeepsUps(pieces);
  }

  lemma {:induction false} ProperKeepsUps(pieces: seq<Bytes>)
    ensures ".." in Proper(pieces) <==> ".." in pieces
  {
    if pieces != [] {
      ProperKeepsUps(pieces[1..]);
    }
  }

  lemma NormalizedIsNormal(raw: Bytes)
    requires Normalize(raw).Some?
    ensures NormalPath(Normalize(raw).value)
  {
    var path := Normalize(raw).value;
    forall i | 0 <= i < |path| ensures NormalName(path[i]) {
      PiecesAreKept(raw, i);
      assert path[i] in path;
    }
  }

  lemma SlashAfter(name: Name, rest: Bytes)
    requires '/' !in name
    ensures FirstSlash(name + "/" + rest) == |name|
    ensures FirstSlash(name) == |name|
  {
    var raw := name + "/" + rest;
    assert forall i | 0 <= i < |name| :: raw[i] == name[i] != '/';
    assert raw[|name|] == '/';
    assert forall i | 0 <= i < FirstSlash(raw) :: raw[..FirstSlash(raw)][i] == raw[i] != '/';
  }

  lemma {:induction false} PiecesOfSlashed(path: Path)
    requires NormalPath(path) && path != []
    ensures Pieces(Slashed(path)) == path
  {
    var raw := Slashed(path);
    if |path| == 1 {
      SlashAfter(path[0], "");
      assert raw[..|raw|] == raw;
    } else {
      SlashAfter(path[0], Slashed(path[1..]));
      assert raw[..|path[0]|] == path[0] && raw[|path[0]| + 1..] == Slashed(path[1..]);
      PiecesOfSlashed(path[1..]);
    }
  }

  /** Splitting the byte form gives the components back, so two paths with one byte form are one. */
  lemma PiecesOfRendered(path: Path)
    requires NormalPath(path)
    ensures Pieces(Rendered(path)) == path
  {
    if path != [] {
      PiecesOfSlashed(path);
    } else {
      assert "."[..FirstSlash(".")] == ".";
    }
  }

  lemma {:induction false} SlashedAppend(one: Path, two: Path)
    requires one != [] && two != []
    ensures Slashed(one + two) == Slashed(one) + "/" + Slashed(two)
  {
    assert (one + two)[0] == one[0] && (one + two)[1..] == one[1..] + two;
    if |one| > 1 {
      SlashedAppend(one[1..], two);
    }
  }

  lemma {:induction false} PrefixBytes(path: Path, other: Path)
    requires NormalPath(path) && NormalPath(other) && path != [] && other != []
    requires Slashed(path) + "/" <= Slashed(other)
    ensures path < other
  {
    var p, o := Slashed(path), Slashed(other);
    var tail := if |path| == 1 then "" else "/" + Slashed(path[1..]);
    assert p == path[0] + tail;
    assert p + "/" == path[0] + "/" + if |path| == 1 then "" else Slashed(path[1..]) + "/";
    SlashAfter(path[0], if |path| == 1 then "" else Slashed(path[1..]) + "/");
    FirstSlashOfExtension(p + "/", o);
    SlashAfter(other[0], Slashed(other[1..]));
    if |other| > 1 {
      assert path[0] == o[..|path[0]|] == other[0];
      assert o[|other[0]| + 1..] == Slashed(other[1..]);
      if |path| > 1 {
        assert (p + "/")[|path[0]| + 1..] == Slashed(path[1..]) + "/";
        assert Slashed(path[1..]) + "/" <= Slashed(other[1..]);
        PrefixBytes(path[1..], other[1..]);
      }
    }
  }

  lemma FirstSlashOfExtension(raw: Bytes, longer: Bytes)
    requires raw <= longer && FirstSlash(raw) < |raw|
    ensures FirstSlash(longer) == FirstSlash(raw)
  {
    var n, m := FirstSlash(raw), FirstSlash(longer);
    assert longer[n] == raw[n] == '/';
    assert forall i | 0 <= i < m :: longer[..m][i] == longer[i] != '/';
    assert forall i | 0 <= i < n :: longer[i] == raw[i] == raw[..n][i] != '/';
  }

  /** The byte test for a descendant, a path followed by a slash being a prefix, is the component
      test. */
  lemma DescendantBytes(path: Path, other: Path)
    requires NormalPath(path) && NormalPath(other) && path != []
    ensures Rendered(path) + "/" <= Rendered(other) <==> path < other
  {
    if path < other {
      var rest := other[|path|..];
      assert other == path + rest;
      SlashedAppend(path, rest);
    }
    if Rendered(path) + "/" <= Rendered(other) && other != [] {
      PrefixBytes(path, other);
    }
    if Rendered(path) + "/" <= Rendered(other) && other == [] {
      assert |Rendered(path)| == 0;
      SlashedIsNotEmpty(path);
    }
  }

  lemma SlashedIsNotEmpty(path: Path)
    requires NormalPath(path) && path != []
    ensures Slashed(path) != []
  {
    assert NormalName(path[0]);
  }
}
