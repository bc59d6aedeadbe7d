/** The part of `pathlib.PurePosixPath` the scripts rely on: reading a path
    from a string, adding a name to it with `/`, and writing it back with
    `str`. */
module Paths {
  import opened Strings
  import opened Sorting

  /** A parsed path: its anchor, which is empty, `/`, or `//` (POSIX keeps
      exactly two leading slashes), and its parts. */
  datatype PurePath = PurePath(root: string, parts: seq<string>)

  /** Parsing drops empty parts (repeated or trailing slashes) and `.`;
      `..` is kept. */
  predicate IsPart(c: string) {
    c != "" && c != "."
  }

  predicate WellFormed(p: PurePath) {
    (p.root == "" || p.root == "/" || p.root == "//")
    && forall k :: 0 <= k < |p.parts| ==> IsPart(p.parts[k]) && '/' !in p.parts[k]
  }

  /** The anchor of a path string: three or more leading slashes count as one. */
  function Anchor(s: string): (r: string)
    ensures r == "" <==> s == [] || s[0] != '/'
  {
    if |s| >= 2 && s[0] == '/' && s[1] == '/' && (|s| == 2 || s[2] != '/') then "//"
    else if s != [] && s[0] == '/' then "/"
    else ""
  }

  /** `PurePosixPath(s)`. */
  function Parse(s: string): (p: PurePath)
    ensures WellFormed(p)
  {
    FilterMembers(Split(s, '/'), IsPart);
    PurePath(Anchor(s), Filter(Split(s, '/'), IsPart))
  }

  /** `str(p)`: the anchor, then the parts joined by `/`; an empty relative
      path is `.`. */
  function Render(p: PurePath): string {
    if p.root == "" && p.parts == [] then "." else p.root + Join(p.parts, "/")
  }

  /** `p / name`: an absolute name replaces the path, a relative one adds
      its parts. */
  function Child(p: PurePath, name: string): (r: PurePath)
    ensures WellFormed(p) ==> WellFormed(r)
  {
    var n := Parse(name);
    if n.root != "" then n else PurePath(p.root, p.parts + n.parts)
  }

  /** `str(Path(s))`. */
  function Normalize(s: string): string {
    Render(Parse(s))
  }

  /** Splitting at the first separator cuts off the piece before it. */
  lemma SplitAt(s: string, sep: char, i: nat)
    requires i < |s| && s[i] == sep && sep !in s[..i]
    ensures Split(s, sep) == [s[..i]] + Split(s[i + 1..], sep)
  {
    IndexOfFirst(s, sep, i);
  }

  /** Splitting at a separator placed between two strings splits each. */
  lemma {:induction false} SplitAround(a: string, b: string, sep: char)
    ensures Split(a + [sep] + b, sep) == Split(a, sep) + Split(b, sep)
    decreases |a|
  {
    if sep !in a {
      SplitCons(a, b, sep);
    } else {
      var i := IndexOf(a, sep);
      var x, rest := a[..i], a[i + 1..];
      assert a == x + [sep] + rest;
      assert a + [sep] + b == x + [sep] + (rest + [sep] + b);
      SplitCons(x, rest, sep);
      SplitCons(x, rest + [sep] + b, sep);
      SplitAround(rest, b, sep);
      AppendAssoc([x], Split(rest, sep), Split(b, sep));
    }
  }

  /** A piece without the separator is the first piece. */
  lemma SplitCons(x: string, rest: string, sep: char)
    requires sep !in x
    ensures Split(x + [sep] + rest, sep) == [x] + Split(rest, sep)
  {
    var s := x + [sep] + rest;
    assert s[..|x|] == x;
    SplitAt(s, sep, |x|);
    assert s[|x| + 1..] == rest;
  }

  /** A joined sequence of non-empty parts starts with the first part's first
      character. */
  lemma JoinStart(parts: seq<string>, sep: string)
    requires parts != [] && parts[0] != []
    ensures Join(parts, sep) != [] && Join(parts, sep)[0] == parts[0][0]
  {
    if |parts| > 1 {
      assert Join(parts, sep) == parts[0] + (sep + Join(parts[1..], sep));
    }
  }

  /** Joining the parts of a path and splitting again gives them back. */
  lemma SplitParts(parts: seq<string>)
    requires forall k :: 0 <= k < |parts| ==> IsPart(parts[k]) && '/' !in parts[k]
    ensures Filter(Split(Join(parts, "/"), '/'), IsPart) == parts
  {
    if parts == [] {
      assert Split([], '/') == [[]];
    } else {
      SplitJoin(parts, '/');
      FilterAll(parts, IsPart);
    }
  }

  /** Writing a path and reading it back gives the same path. */
  lemma ParseRender(p: PurePath)
    requires WellFormed(p)
    ensures Parse(Render(p)) == p
  {
    if p.root == "" && p.parts == [] {
      assert '/' !in ".";
      assert Split(".", '/') == ["."];
    } else if p.root == "" {
      assert Render(p) == Join(p.parts, "/");
      ParseRelative(p.parts);
    } else if p.root == "/" {
      ParseRooted(p.parts);
    } else {
      ParseDoubleRooted(p.parts);
    }
  }

  lemma ParseRelative(parts: seq<string>)
    requires parts != [] && forall k :: 0 <= k < |parts| ==> IsPart(parts[k]) && '/' !in parts[k]
    ensures Parse(Join(parts, "/")) == PurePath("", parts)
  {
    JoinStart(parts, "/");
    SplitParts(parts);
  }

  lemma ParseRooted(parts: seq<string>)
    requires forall k :: 0 <= k < |parts| ==> IsPart(parts[k]) && '/' !in parts[k]
    ensures Parse("/" + Join(parts, "/")) == PurePath("/", parts)
  {
    var j := Join(parts, "/");
    var s := "/" + j;
    assert Anchor(s) == "/" by {
      if parts != [] {
        JoinStart(parts, "/");
        assert s[1] == j[0];
      }
    }
    SplitAfterSlash(j);
    SplitParts(parts);
    DropEmptyPiece(Split(j, '/'));
  }

  lemma ParseDoubleRooted(parts: seq<string>)
    requires forall k :: 0 <= k < |parts| ==> IsPart(parts[k]) && '/' !in parts[k]
    ensures Parse("//" + Join(parts, "/")) == PurePath("//", parts)
  {
    var j := Join(parts, "/");
    var s := "//" + j;
    if parts != [] {
      JoinStart(parts, "/");
    }
    DoubleAnchor(j);
    DoubleSlashPieces(j);
    SplitParts(parts);
  }

  lemma DoubleSlashPieces(j: string)
    ensures Filter(Split("//" + j, '/'), IsPart) == Filter(Split(j, '/'), IsPart)
  {
    var pieces := Split(j, '/');
    assert "//" + j == "/" + ("/" + j);
    SplitAfterSlash("/" + j);
    SplitAfterSlash(j);
    DropEmptyPiece([[]] + pieces);
    DropEmptyPiece(pieces);
  }

  lemma DoubleAnchor(j: string)
    requires j == [] || j[0] != '/'
    ensures Anchor("//" + j) == "//"
  {
    var s := "//" + j;
    assert s[0] == '/' && s[1] == '/';
    if j != [] {
      assert s[2] == j[0];
    }
  }

  /** A leading slash adds an empty first piece. */
  lemma SplitAfterSlash(j: string)
    ensures Split("/" + j, '/') == [[]] + Split(j, '/')
  {
    assert "/" + j == [] + ['/'] + j;
    SplitAround([], j, '/');
    assert Split([], '/') == [[]];
  }

  lemma DropEmptyPiece(rest: seq<string>)
    ensures Filter([[]] + rest, IsPart) == Filter(rest, IsPart)
  {
    assert ([[]] + rest)[1..] == rest;
  }

  /** `str(Path(str(Path(s))))` is `str(Path(s))`. */
  lemma NormalizeIdempotent(s: string)
    ensures Normalize(Normalize(s)) == Normalize(s)
  {
    ParseRender(Parse(s));
  }

  /** A leading `./` changes nothing but the anchor it hides. */
  lemma CurrentDirPrefix(s: string)
    ensures Parse("./" + s).root == "" && Parse("./" + s).parts == Parse(s).parts
    ensures Anchor(s) == "" ==> Normalize("./" + s) == Normalize(s)
  {
    assert "./" + s == "." + ['/'] + s;
    SplitAround(".", s, '/');
    assert '/' !in ".";
    assert Split(".", '/') == ["."];
    FilterAppend(["."], Split(s, '/'), IsPart);
  }

  /** A single plain name reads as a relative path of that one part. */
  lemma ParseName(name: string)
    requires IsPart(name) && '/' !in name
    ensures Parse(name) == PurePath("", [name])
  {
  }

  /** Adding a plain name appends it as the last part, and its string is the
      path's string, a slash and the name (or just the anchor and the name for
      a path with no parts). */
  lemma ChildName(p: PurePath, name: string)
    requires WellFormed(p) && IsPart(name) && '/' !in name
    ensures Child(p, name) == PurePath(p.root, p.parts + [name])
    ensures Render(Child(p, name)) == if p.parts == [] then p.root + name else Render(p) + "/" + name
  {
    ParseName(name);
    var c := PurePath(p.root, p.parts + [name]);
    assert Child(p, name) == c;
    if p.parts != [] {
      RenderAppend(p, name);
    } else {
      assert c.parts == [name];
      assert Render(c) == p.root + Join([name], "/");
    }
  }

  /** One more part on a path with parts writes as the path, a slash and
      the part. */
  lemma RenderAppend(p: PurePath, name: string)
    requires p.parts != []
    ensures Render(PurePath(p.root, p.parts + [name])) == Render(p) + "/" + name
  {
    JoinAppend(p.parts, name, "/");
  }

  lemma {:induction false} JoinAppend(parts: seq<string>, x: string, sep: string)
    requires parts != []
    ensures Join(parts + [x], sep) == Join(parts, sep) + sep + x
  {
    if |parts| > 1 {
      assert (parts + [x])[1..] == parts[1..] + [x];
      JoinAppend(parts[1..], x, sep);
    }
  }
}
