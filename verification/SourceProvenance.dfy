/** Length-prefixed framing: eight big-endian bytes of length, then the bytes themselves. */
module Framing {
  import opened Outcomes
  import opened ByteStrings

  /** No byte string is as long as this. */
  const LIMIT: nat := 0x8000_0000_0000_0000

  function Power(k: nat): nat {
    if k == 0 then 1 else 256 * Power(k - 1)
  }

  function BigEndian(n: nat, k: nat): (r: Bytes)
    ensures |r| == k
  {
    if k == 0 then [] else BigEndian(n / 256, k - 1) + [(n % 256) as byte]
  }

  function Value(s: Bytes): nat {
    if s == [] then 0 else Value(s[..|s| - 1]) * 256 + s[|s| - 1] as nat
  }

  lemma {:induction false} ValueOfBigEndian(n: nat, k: nat)
    requires n < Power(k)
    ensures Value(BigEndian(n, k)) == n
  {
    if k > 0 {
      ValueOfBigEndian(n / 256, k - 1);
      assert BigEndian(n, k)[..k - 1] == BigEndian(n / 256, k - 1);
    }
  }

  lemma LimitFitsEightBytes()
    ensures LIMIT < Power(8)
  {
    assert Power(4) == 0x1_0000_0000;
    assert Power(8) == 256 * (256 * (256 * (256 * Power(4))));
  }

  /** The most significant byte comes first: one more byte at the end is one more power of 256. */
  lemma BigEndianEndsLow(n: nat, k: nat, b: byte)
    ensures BigEndian(n * 256 + b as nat, k + 1) == BigEndian(n, k) + [b]
  {
    assert (n * 256 + b as nat) / 256 == n && (n * 256 + b as nat) % 256 == b as nat;
  }

  function Frame(x: Bytes): Bytes {
    BigEndian(|x|, 8) + x
  }

  /** The first frame of a stream and what follows it. */
  function Unframe(s: Bytes): (r: Option<(Bytes, Bytes)>)
    ensures r.Some? ==> |r.value.1| < |s|
  {
    if |s| < 8 then None
    else
      var n := Value(s[..8]);
      if |s| - 8 < n then None else Some((s[8..8 + n], s[8 + n..]))
  }

  lemma UnframeFrame(x: Bytes, rest: Bytes)
    requires |x| < LIMIT
    ensures Unframe(Frame(x) + rest) == Some((x, rest))
  {
    var s := Frame(x) + rest;
    LimitFitsEightBytes();
    ValueOfBigEndian(|x|, 8);
    assert s[..8] == BigEndian(|x|, 8);
    assert s[8..8 + |x|] == x && s[8 + |x|..] == rest;
  }

  datatype Entry = Entry(path: Bytes, data: Bytes)

  predicate Short(e: Entry) {
    |e.path| < LIMIT && |e.data| < LIMIT
  }

  function Frames(e: Entry): Bytes {
    Frame(e.path) + Frame(e.data)
  }

  function Stream(es: seq<Entry>): Bytes {
    if es == [] then [] else Frames(es[0]) + Stream(es[1..])
  }

  lemma {:induction false} StreamExtends(es: seq<Entry>, e: Entry)
    ensures Stream(es + [e]) == Stream(es) + Frames(e)
  {
    if es == [] {
      assert [e][1..] == [];
    } else {
      assert (es + [e])[1..] == es[1..] + [e];
      StreamExtends(es[1..], e);
    }
  }

  /** Decodes a stream of path and data frames. */
  function Parse(s: Bytes): Option<seq<Entry>>
    decreases |s|
  {
    if s == [] then Some([])
    else
      var path := Unframe(s);
      if path.None? then None
      else
        var data := Unframe(path.value.1);
        if data.None? then None
        else
          var rest := Parse(data.value.1);
          if rest.None? then None else Some([Entry(path.value.0, data.value.0)] + rest.value)
  }

  /** The stream of a list of entries decodes to exactly that list, so no two lists share a stream. */
  lemma {:induction false} ParseStream(es: seq<Entry>)
    requires forall e :: e in es ==> Short(e)
    ensures Parse(Stream(es)) == Some(es)
  {
    if es != [] {
      var e, rest := es[0], Stream(es[1..]);
      assert e in es && Short(e);
      assert Stream(es) == Frame(e.path) + (Frame(e.data) + rest);
      UnframeFrame(e.path, Frame(e.data) + rest);
      UnframeFrame(e.data, rest);
      ParseStream(es[1..]);
      assert es == [e] + es[1..];
    }
  }
}

/**
 * The digest of a source tree and the provenance record that travels from a checkout through a source distribution to
 * a wheel. File names are byte strings (UTF-8), so comparing them byte by byte is comparing them by code point.
 */
module SourceProvenance {
  import opened Outcomes
  import opened ByteStrings
  import opened Framing

  const SLASH: byte := 47
  const DOT: byte := 46

  type Name = n: Bytes | 0 < |n| && SLASH !in n witness [109]

  /** The path relative to the root, in posix form. */
  function Posix(p: seq<Name>): Bytes {
    if p == [] then [] else if |p| == 1 then p[0] else p[0] + [SLASH] + Posix(p[1..])
  }

  /** One more component goes on after a slash. */
  lemma {:induction false} PosixExtends(p: seq<Name>, n: Name)
    ensures Posix([n]) == n
    ensures p != [] ==> Posix(p + [n]) == Posix(p) + [47] + n
  {
    if p != [] {
      assert (p + [n])[1..] == p[1..] + [n];
      PosixExtends(p[1..], n);
      if |p| == 1 { assert p + [n] == [p[0], n]; }
    }
  }

  predicate IsPath(p: seq<Name>) {
    0 < |p| && |Posix(p)| < LIMIT
  }

  type Octets = d: Bytes | |d| < LIMIT

  /** Every regular file below a directory. */
  type Tree = map<seq<Name>, Octets>

  predicate WellFormed(t: Tree) {
    forall p :: p in t ==> IsPath(p)
  }

  lemma FirstName(a: seq<Name>, k: nat)
    requires a != [] && k < |a[0]|
    ensures k < |Posix(a)| && Posix(a)[k] == a[0][k] && Posix(a)[k] != SLASH
  {
    assert Posix(a)[k] == a[0][k];
    assert a[0][k] in a[0];
  }

  lemma NoSlashInside(a: seq<Name>, k: nat)
    requires a != []
    ensures k < |a[0]| ==> k < |Posix(a)| && Posix(a)[k] != SLASH
  {
    if k < |a[0]| { FirstName(a, k); }
  }

  lemma AfterFirstName(a: seq<Name>)
    requires a != []
    ensures |Posix(a)| == |a[0]| || Posix(a)[|a[0]|] == SLASH
    ensures |Posix(a)| >= |a[0]|
    ensures |Posix(a)| == |a[0]| <==> |a| == 1
  {
  }

  /** Different paths have different posix forms. */
  lemma {:induction false} PosixInjective(a: seq<Name>, b: seq<Name>)
    requires a != [] && b != [] && Posix(a) == Posix(b)
    ensures a == b
    decreases |a|
  {
    AfterFirstName(a);
    AfterFirstName(b);
    NoSlashInside(a, |b[0]|);
    NoSlashInside(b, |a[0]|);
    forall k | 0 <= k < |a[0]| ensures a[0][k] == b[0][k] {
      FirstName(a, k);
      FirstName(b, k);
    }
    assert a[0] == b[0];
    if |a| > 1 {
      assert Posix(a)[|a[0]| + 1..] == Posix(a[1..]);
      assert Posix(b)[|b[0]| + 1..] == Posix(b[1..]);
      PosixInjective(a[1..], b[1..]);
      assert a == [a[0]] + a[1..] && b == [b[0]] + b[1..];
    }
  }

  // ---------------------------------------------------------------- the order of paths

  predicate Less(a: Bytes, b: Bytes) {
    b != [] && (a == [] || a[0] < b[0] || (a[0] == b[0] && Less(a[1..], b[1..])))
  }

  /** Paths compare component by component. */
  predicate PathLess(a: seq<Name>, b: seq<Name>) {
    b != [] && (a == [] || if a[0] == b[0] then PathLess(a[1..], b[1..]) else Less(a[0], b[0]))
  }

  lemma {:induction false} LessIsStrict(a: Bytes, b: Bytes, c: Bytes)
    ensures !Less(a, a)
    ensures Less(a, b) && Less(b, c) ==> Less(a, c)
    ensures Less(a, b) || a == b || Less(b, a)
  {
    if a != [] && b != [] {
      LessIsStrict(a[1..], b[1..], if c == [] then [] else c[1..]);
      assert a == [a[0]] + a[1..] && b == [b[0]] + b[1..];
    } else if a != [] {
      LessIsStrict(a[1..], [], []);
    }
  }

  lemma {:induction false} PathLessIsStrict(a: seq<Name>, b: seq<Name>, c: seq<Name>)
    ensures !PathLess(a, a)
    ensures PathLess(a, b) && PathLess(b, c) ==> PathLess(a, c)
    ensures PathLess(a, b) || a == b || PathLess(b, a)
  {
    if a != [] {
      LessIsStrict(a[0], a[0], a[0]);
      if b == [] {
        PathLessIsStrict(a[1..], [], []);
      } else {
        PathLessIsStrict(a[1..], b[1..], if c == [] then [] else c[1..]);
        assert a == [a[0]] + a[1..] && b == [b[0]] + b[1..];
        LessIsStrict(a[0], b[0], if c == [] then [] else c[0]);
        LessIsStrict(b[0], a[0], a[0]);
      }
    }
  }

  /** The two agree on their first `k` components. */
  predicate SameStart<T(==)>(a: seq<T>, b: seq<T>, k: nat) {
    k <= |a| && k <= |b| && a[..k] == b[..k]
  }

  /** Byte strings are ordered by their first difference, and a beginning comes before what it begins. */
  predicate FirstDifference(a: Bytes, b: Bytes, k: nat) {
    SameStart(a, b, k) && k < |b| && (k == |a| || a[k] < b[k])
  }

  lemma {:induction false} LessAt(a: Bytes, b: Bytes) returns (k: nat)
    requires Less(a, b)
    ensures FirstDifference(a, b, k)
  {
    k := 0;
    if a != [] && a[0] == b[0] {
      k := LessAt(a[1..], b[1..]);
      k := k + 1;
      assert a[..k] == [a[0]] + a[1..][..k - 1] && b[..k] == [b[0]] + b[1..][..k - 1];
    }
  }

  lemma {:induction false} FirstDifferenceDecides(a: Bytes, b: Bytes, k: nat)
    requires FirstDifference(a, b, k)
    ensures Less(a, b)
    decreases k
  {
    if k > 0 {
      assert a[0] == a[..k][0] == b[..k][0] == b[0];
      assert a[1..][..k - 1] == a[..k][1..] && b[1..][..k - 1] == b[..k][1..];
      FirstDifferenceDecides(a[1..], b[1..], k - 1);
    }
  }

  /** Paths are ordered by the first component in which they differ, and a directory comes before what is in it. */
  predicate FirstComponent(a: seq<Name>, b: seq<Name>, k: nat) {
    SameStart(a, b, k) && k < |b| && (k == |a| || Less(a[k], b[k]))
  }

  lemma {:induction false} PathLessAt(a: seq<Name>, b: seq<Name>) returns (k: nat)
    requires PathLess(a, b)
    ensures FirstComponent(a, b, k)
  {
    k := 0;
    if a != [] && a[0] == b[0] {
      k := PathLessAt(a[1..], b[1..]);
      k := k + 1;
      assert a[..k] == [a[0]] + a[1..][..k - 1] && b[..k] == [b[0]] + b[1..][..k - 1];
    }
  }

  lemma {:induction false} FirstComponentDecides(a: seq<Name>, b: seq<Name>, k: nat)
    requires FirstComponent(a, b, k)
    ensures PathLess(a, b)
    decreases k
  {
    if k > 0 {
      assert a[0] == a[..k][0] == b[..k][0] == b[0];
      assert a[1..][..k - 1] == a[..k][1..] && b[1..][..k - 1] == b[..k][1..];
      FirstComponentDecides(a[1..], b[1..], k - 1);
    } else if a != [] {
      LessIsStrict(a[0], b[0], a[0]);
    }
  }

  /** The order in which files are digested. */
  lemma OrderOfPaths(a: seq<Name>, b: seq<Name>)
    ensures PathLess(a, b) <==> exists k :: FirstComponent(a, b, k)
    ensures forall m, n :: Less(m, n) <==> exists k :: FirstDifference(m, n, k)
  {
    if PathLess(a, b) { var k := PathLessAt(a, b); }
    forall k | FirstComponent(a, b, k) ensures PathLess(a, b) { FirstComponentDecides(a, b, k); }
    forall m, n ensures Less(m, n) <==> exists k :: FirstDifference(m, n, k) {
      if Less(m, n) { var k := LessAt(m, n); }
      forall k | FirstDifference(m, n, k) ensures Less(m, n) { FirstDifferenceDecides(m, n, k); }
    }
  }

  predicate Ascending(s: seq<seq<Name>>) {
    forall i, j :: 0 <= i < j < |s| ==> PathLess(s[i], s[j])
  }

  function Insert(p: seq<Name>, s: seq<seq<Name>>): seq<seq<Name>> {
    if s == [] || PathLess(p, s[0]) then [p] + s else [s[0]] + Insert(p, s[1..])
  }

  function Sorted(s: seq<seq<Name>>): seq<seq<Name>> {
    if s == [] then [] else Insert(s[0], Sorted(s[1..]))
  }

  lemma {:induction false} InsertKeeps(p: seq<Name>, s: seq<seq<Name>>)
    requires Ascending(s) && p !in s
    ensures Ascending(Insert(p, s))
    ensures forall q :: q in Insert(p, s) <==> q == p || q in s
  {
    if s == [] {
    } else if PathLess(p, s[0]) {
      forall j | 0 <= j < |s| ensures PathLess(p, s[j]) { PathLessIsStrict(p, s[0], s[j]); }
    } else {
      assert s == [s[0]] + s[1..];
      InsertKeeps(p, s[1..]);
      PathLessIsStrict(p, s[0], p);
      assert PathLess(s[0], p);
      var rest := Insert(p, s[1..]);
      forall j | 0 <= j < |rest| ensures PathLess(s[0], rest[j]) { assert rest[j] in rest; }
    }
  }

  predicate Distinct(s: seq<seq<Name>>) {
    forall i, j :: 0 <= i < j < |s| ==> s[i] != s[j]
  }

  lemma {:induction false} SortedSorts(s: seq<seq<Name>>)
    requires Distinct(s)
    ensures Ascending(Sorted(s))
    ensures forall q :: q in Sorted(s) <==> q in s
  {
    if s != [] {
      SortedSorts(s[1..]);
      assert s[0] !in s[1..];
      InsertKeeps(s[0], Sorted(s[1..]));
      assert s == [s[0]] + s[1..];
    }
  }

  lemma HasMember(b: seq<seq<Name>>)
    ensures b == [] || exists p :: p in b
  {
    if b != [] { assert b[0] in b; }
  }

  /** Two ascending lists of the same paths are the same list. */
  lemma {:induction false} AscendingUnique(a: seq<seq<Name>>, b: seq<seq<Name>>)
    requires Ascending(a) && Ascending(b) && forall p :: p in a <==> p in b
    ensures a == b
  {
    if a == [] {
      HasMember(b);
    } else {
      assert a[0] in b;
      SameHead(a, b);
      assert a == [a[0]] + a[1..] && b == [b[0]] + b[1..];
      NotInTail(a);
      NotInTail(b);
      assert forall p :: p in a[1..] <==> p in a && p != a[0];
      assert forall p :: p in b[1..] <==> p in b && p != b[0];
      AscendingUnique(a[1..], b[1..]);
    }
  }

  lemma NotInTail(a: seq<seq<Name>>)
    requires a != [] && Ascending(a)
    ensures a[0] !in a[1..] && Ascending(a[1..])
  {
    PathLessIsStrict(a[0], a[0], a[0]);
  }

  lemma SameHead(a: seq<seq<Name>>, b: seq<seq<Name>>)
    requires a != [] && b != [] && Ascending(a) && Ascending(b) && forall p :: p in a <==> p in b
    ensures a[0] == b[0]
  {
    assert a[0] in b && b[0] in a;
    var i :| 0 <= i < |b| && b[i] == a[0];
    var j :| 0 <= j < |a| && a[j] == b[0];
    PathLessIsStrict(a[0], b[0], a[0]);
  }

  // ---------------------------------------------------------------- which files are digested

  function Ascii(s: string): Bytes {
    seq(|s|, i requires 0 <= i < |s| => if s[i] < 128 as char then s[i] as byte else 0)
  }

  function LastDot(n: Bytes): int
    ensures -1 <= LastDot(n) < |n|
  {
    if n == [] then -1 else if n[|n| - 1] == DOT then |n| - 1 else LastDot(n[..|n| - 1])
  }

  /** The last suffix of a name: not the whole name, and not a bare dot. */
  function Suffix(n: Bytes): Bytes {
    var i := LastDot(n);
    if 0 < i < |n| - 1 then n[i..] else []
  }

  predicate IsProvenance(p: seq<Name>) {
    p == [Ascii("mixle"), Ascii("_build_provenance.json")]
  }

  predicate IsRootFile(p: seq<Name>) {
    p == [Ascii("pyproject.toml")] || p == [Ascii("setup.py")]
  }

  predicate InPackage(p: seq<Name>) {
    |p| >= 2 && p[0] == Ascii("mixle")
  }

  predicate Selects(p: seq<Name>) {
    IsRootFile(p)
    || (InPackage(p) && !IsProvenance(p) && Suffix(p[|p| - 1]) in {Ascii(".json"), Ascii(".py"), Ascii(".pyx")})
  }

  /** The files of a tree that its digest covers. */
  function Selected(t: Tree): Tree {
    map p | p in t && Selects(p) :: t[p]
  }

  lemma {:induction false} LastDotIsLast(n: Bytes)
    ensures LastDot(n) >= 0 ==> n[LastDot(n)] == DOT
    ensures forall i :: LastDot(n) < i < |n| ==> n[i] != DOT
  {
    if n != [] { LastDotIsLast(n[..|n| - 1]); }
  }

  /** A name has an extension as its suffix exactly when it ends in it and is more than it. */
  lemma SuffixIff(n: Bytes, ext: Bytes)
    requires |ext| > 1 && ext[0] == DOT && forall i :: 1 <= i < |ext| ==> ext[i] != DOT
    ensures Suffix(n) == ext <==> exists stem :: stem != [] && n == stem + ext
  {
    LastDotIsLast(n);
    if Suffix(n) == ext {
      assert n == n[..LastDot(n)] + ext;
    }
    forall stem | stem != [] && n == stem + ext ensures Suffix(n) == ext {
      assert n[|stem|] == DOT;
      forall j | |stem| < j < |n| ensures n[j] != DOT { assert n[j] == ext[j - |stem|]; }
      assert n[|stem|..] == ext;
    }
  }

  lemma Extensions()
    ensures forall s :: s == ".json" || s == ".py" || s == ".pyx" ==>
      |Ascii(s)| > 1 && Ascii(s)[0] == DOT && forall i :: 1 <= i < |Ascii(s)| ==> Ascii(s)[i] != DOT
  {
  }

  /** Which files are source: the two root files, and everything below the package directory whose name has one of three
      extensions, but not the recorded provenance. */
  ghost predicate IsSource(p: seq<Name>) {
    || p == [Ascii("pyproject.toml")] || p == [Ascii("setup.py")]
    || (|p| >= 2 && p[0] == Ascii("mixle") && p != [Ascii("mixle"), Ascii("_build_provenance.json")]
        && (HasExtension(p[|p| - 1], ".json") || HasExtension(p[|p| - 1], ".py") || HasExtension(p[|p| - 1], ".pyx")))
  }

  ghost predicate HasExtension(n: Name, ext: string) {
    exists stem :: stem != [] && n == stem + Ascii(ext)
  }

  lemma SelectsIff(p: seq<Name>)
    ensures Selects(p) <==> IsSource(p)
  {
    Extensions();
    if p != [] {
      SuffixIff(p[|p| - 1], Ascii(".json"));
      SuffixIff(p[|p| - 1], Ascii(".py"));
      SuffixIff(p[|p| - 1], Ascii(".pyx"));
    }
  }

  /** One file is the same in both trees: the same bytes, or absent from both. */
  predicate SameIn(t: Tree, u: Tree, p: seq<Name>) {
    (p in t <==> p in u) && (p in t && p in u ==> t[p] == u[p])
  }

  /** Two trees have the same selection exactly when no source file differs between them: adding, removing or editing
      any one of them is noticed, and nothing else is. */
  lemma SelectionNotices(t: Tree, u: Tree)
    ensures Selected(t) == Selected(u) <==> forall p :: IsSource(p) ==> SameIn(t, u, p)
  {
    forall p ensures Selects(p) <==> IsSource(p) { SelectsIff(p); }
    if Selected(t) == Selected(u) {
      forall p | IsSource(p) ensures SameIn(t, u, p) {
        assert p in t <==> p in Selected(t);
        assert p in u <==> p in Selected(u);
        if p in t { assert Selected(t)[p] == t[p] && Selected(u)[p] == u[p]; }
      }
    }
    if forall p :: IsSource(p) ==> SameIn(t, u, p) {
      assert forall p :: p in Selected(t) <==> p in Selected(u);
      assert Selected(t) == Selected(u);
    }
  }

  /** An ascending list of a set of paths. */
  ghost function FilesOf(paths: set<seq<Name>>): (files: seq<seq<Name>>)
    ensures Ascending(files) && forall p :: p in files <==> p in paths
  {
    if paths == {} then []
    else
      var p :| p in paths;
      var rest := FilesOf(paths - {p});
      InsertKeeps(p, rest);
      Insert(p, rest)
  }

  ghost function SourceFiles(t: Tree): seq<seq<Name>> {
    FilesOf(Selected(t).Keys)
  }

  function Entries(t: Tree, files: seq<seq<Name>>): (es: seq<Entry>)
    requires forall p :: p in files ==> p in t
    ensures |es| == |files| && forall i :: 0 <= i < |es| ==> es[i] == Entry(Posix(files[i]), t[files[i]])
  {
    seq(|files|, i requires 0 <= i < |files| => Entry(Posix(files[i]), t[files[i]]))
  }

  /** The byte stream that is hashed for a tree. */
  ghost function SourceStream(t: Tree): Bytes {
    Stream(Entries(t, SourceFiles(t)))
  }

  predicate Covers(t: Tree, files: seq<seq<Name>>) {
    forall p :: p in files ==> p in t
  }

  lemma EntriesAreShort(t: Tree, files: seq<seq<Name>>)
    requires WellFormed(t) && Covers(t, files)
    ensures forall e :: e in Entries(t, files) ==> Short(e)
  {
    forall e | e in Entries(t, files) ensures Short(e) {
      var i :| 0 <= i < |files| && Entries(t, files)[i] == e;
      assert files[i] in files && IsPath(files[i]);
    }
  }

  lemma SameEntriesSameFiles(t: Tree, u: Tree, a: seq<seq<Name>>, b: seq<seq<Name>>)
    requires WellFormed(t) && WellFormed(u) && Covers(t, a) && Covers(u, b) && Entries(t, a) == Entries(u, b)
    ensures a == b && forall p :: p in a ==> t[p] == u[p]
  {
    assert |a| == |b|;
    forall i | 0 <= i < |a| ensures a[i] == b[i] && t[a[i]] == u[a[i]] {
      assert Entries(t, a)[i] == Entries(u, b)[i];
      assert a[i] in a && b[i] in b && IsPath(a[i]) && IsPath(b[i]);
      PosixInjective(a[i], b[i]);
    }
  }

  lemma SameStreamSameEntries(t: Tree, u: Tree, a: seq<seq<Name>>, b: seq<seq<Name>>)
    requires WellFormed(t) && WellFormed(u) && Covers(t, a) && Covers(u, b)
    requires Stream(Entries(t, a)) == Stream(Entries(u, b))
    ensures Entries(t, a) == Entries(u, b)
  {
    EntriesAreShort(t, a);
    EntriesAreShort(u, b);
    ParseStream(Entries(t, a));
    ParseStream(Entries(u, b));
  }

  lemma SameSelection(t: Tree, u: Tree, files: seq<seq<Name>>)
    requires forall p :: p in files <==> p in Selected(t)
    requires forall p :: p in files <==> p in Selected(u)
    requires forall p :: p in files ==> t[p] == u[p]
    ensures Selected(t) == Selected(u)
  {
    forall p ensures p in Selected(t) <==> p in Selected(u) { assert p in files <==> p in Selected(t); }
  }

  /** Two trees are hashed from the same bytes exactly when their selected files are the same, in name and content. */
  lemma SameStreamIffSameFiles(t: Tree, u: Tree)
    requires WellFormed(t) && WellFormed(u)
    ensures SourceStream(t) == SourceStream(u) <==> Selected(t) == Selected(u)
  {
    if SourceStream(t) == SourceStream(u) {
      SameStreamSameEntries(t, u, SourceFiles(t), SourceFiles(u));
      SameEntriesSameFiles(t, u, SourceFiles(t), SourceFiles(u));
      SameSelection(t, u, SourceFiles(t));
    } else if Selected(t) == Selected(u) {
      SelectionFixesStream(t, u);
    }
  }

  lemma SelectionFixesStream(t: Tree, u: Tree)
    requires Selected(t) == Selected(u)
    ensures SourceStream(t) == SourceStream(u)
  {
    var files := SourceFiles(t);
    forall p | p in files ensures t[p] == u[p] {
      assert Selected(t)[p] == t[p] && Selected(u)[p] == u[p];
    }
    SameData(t, u, files);
  }

  lemma SameData(t: Tree, u: Tree, files: seq<seq<Name>>)
    requires Covers(t, files) && Covers(u, files) && forall p :: p in files ==> t[p] == u[p]
    ensures Entries(t, files) == Entries(u, files)
  {
    forall i | 0 <= i < |files| ensures Entries(t, files)[i] == Entries(u, files)[i] { assert files[i] in files; }
  }

  /** The recorded provenance is no part of what is digested. */
  lemma ProvenanceIsNotDigested(t: Tree, p: seq<Name>, data: Octets)
    requires IsProvenance(p)
    ensures Selected(t[p := data]) == Selected(t) && Selected(t - {p}) == Selected(t)
  {
    assert !IsRootFile(p) by { assert |p| == 2; }
  }

  /** What walking the package directory yields: every file below it once, among other entries, in any order. */
  predicate Lists(t: Tree, listing: seq<seq<Name>>) {
    Distinct(listing)
    && (forall p :: p in t && InPackage(p) ==> p in listing)
    && (forall p :: p in listing ==> InPackage(p))
  }

  predicate Wanted(t: Tree, p: seq<Name>) {
    p in t && p != [] && Suffix(p[|p| - 1]) in {Ascii(".json"), Ascii(".py"), Ascii(".pyx")}
  }

  lemma AsciiName(s: string)
    requires s != "" && forall c :: c in s ==> c < 128 as char && c != '/'
    ensures SLASH !in Ascii(s) && |Ascii(s)| == |s|
  {
    forall i | 0 <= i < |s| ensures Ascii(s)[i] != SLASH { assert s[i] in s; }
  }

  function PyProject(): (p: seq<Name>)
    ensures p == [Ascii("pyproject.toml")]
  {
    AsciiName("pyproject.toml");
    [Ascii("pyproject.toml")]
  }

  function SetupPy(): (p: seq<Name>)
    ensures p == [Ascii("setup.py")]
  {
    AsciiName("setup.py");
    [Ascii("setup.py")]
  }

  function Provenance(): (p: seq<Name>)
    ensures IsProvenance(p)
  {
    AsciiName("mixle");
    AsciiName("_build_provenance.json");
    [Ascii("mixle"), Ascii("_build_provenance.json")]
  }

  function Filter(keep: seq<Name> -> bool, s: seq<seq<Name>>): seq<seq<Name>> {
    if s == [] then [] else (if keep(s[0]) then [s[0]] else []) + Filter(keep, s[1..])
  }

  lemma {:induction false} FilterKeeps(keep: seq<Name> -> bool, s: seq<seq<Name>>)
    requires Distinct(s)
    ensures Distinct(Filter(keep, s))
    ensures forall p :: p in Filter(keep, s) <==> p in s && keep(p)
  {
    if s != [] {
      assert s == [s[0]] + s[1..] && s[0] !in s[1..];
      FilterKeeps(keep, s[1..]);
    }
  }

  function Candidates(t: Tree, listing: seq<seq<Name>>): seq<seq<Name>> {
    [PyProject(), SetupPy()] + Filter(p => Wanted(t, p), listing)
  }

  /** The selected files of a tree, in order, from a listing of its package directory. */
  function SourceContentFiles(t: Tree, listing: seq<seq<Name>>): seq<seq<Name>> {
    Sorted(Filter(p => p in t && !IsProvenance(p), Candidates(t, listing)))
  }

  lemma RootFilesDiffer()
    ensures PyProject() != SetupPy() && !InPackage(PyProject()) && !InPackage(SetupPy())
    ensures !IsProvenance(PyProject()) && !IsProvenance(SetupPy())
  {
    assert |Ascii("pyproject.toml")| == 14 && |Ascii("setup.py")| == 8;
    assert PyProject()[0] != SetupPy()[0];
  }

  lemma CandidatesAreDistinct(t: Tree, listing: seq<seq<Name>>)
    requires Lists(t, listing)
    ensures Distinct(Candidates(t, listing))
    ensures forall p :: p in Candidates(t, listing) <==> IsRootFile(p) || (p in listing && Wanted(t, p))
  {
    var rest := Filter(p => Wanted(t, p), listing);
    FilterKeeps(p => Wanted(t, p), listing);
    RootFilesDiffer();
    assert forall p :: p in rest ==> InPackage(p);
    forall j | 0 <= j < |rest| ensures rest[j] != PyProject() && rest[j] != SetupPy() { assert rest[j] in rest; }
  }

  lemma CandidateIsSelected(t: Tree, listing: seq<seq<Name>>, p: seq<Name>)
    requires Lists(t, listing) && p in t && !IsProvenance(p)
    ensures (IsRootFile(p) || (p in listing && Wanted(t, p))) <==> Selects(p)
  {
  }

  lemma NeverSelectsProvenance(p: seq<Name>)
    requires IsProvenance(p)
    ensures !Selects(p)
  {
    assert !IsRootFile(p) by { assert |p| == 2; }
  }

  /** Whatever order the directory is listed in, the selection is the same. */
  lemma ListingOrderIsIrrelevant(t: Tree, listing: seq<seq<Name>>)
    requires Lists(t, listing)
    ensures SourceContentFiles(t, listing) == SourceFiles(t)
  {
    var all := Candidates(t, listing);
    var paths := Filter(p => p in t && !IsProvenance(p), all);
    CandidatesAreDistinct(t, listing);
    FilterKeeps(p => p in t && !IsProvenance(p), all);
    SortedSorts(paths);
    forall p ensures p in paths <==> p in Selected(t) {
      if p in t && !IsProvenance(p) { CandidateIsSelected(t, listing, p); }
      if IsProvenance(p) { NeverSelectsProvenance(p); }
    }
    AscendingUnique(Sorted(paths), SourceFiles(t));
  }

  // ---------------------------------------------------------------- the digest

  /** The hash, the JSON writer and the JSON reader that the build uses. */
  datatype Tools = Tools(digest: Bytes -> string, render: Record -> Octets, parse: Bytes -> Json)

  datatype Value = Text(text: string) | Count(n: nat) | Flag(b: bool) | Null | Composite

  type Record = map<string, Value>

  datatype Json = Malformed | NotAnObject | Object(record: Record)

  ghost function SourceDigest(tools: Tools, t: Tree): string {
    tools.digest(SourceStream(t))
  }

  /** Feeds the hash frame by frame, one file after another. */
  method FeedFiles(t: Tree, files: seq<seq<Name>>) returns (fed: Bytes)
    requires Covers(t, files)
    ensures fed == Stream(Entries(t, files))
  {
    fed := [];
    ghost var es := Entries(t, files);
    for i := 0 to |files|
      invariant fed == Stream(es[..i])
    {
      assert files[i] in files;
      var relative, data := Posix(files[i]), t[files[i]];
      StreamExtends(es[..i], es[i]);
      assert es[..i + 1] == es[..i] + [es[i]];
      Regroup(fed, Frame(relative), Frame(data));
      fed := fed + Frame(relative);
      fed := fed + Frame(data);
    }
    assert es[..|files|] == es;
  }

  lemma Regroup(a: Bytes, b: Bytes, c: Bytes)
    ensures a + b + c == a + (b + c)
  {
  }

  method SourceContentDigest(tools: Tools, t: Tree, listing: seq<seq<Name>>) returns (d: string)
    requires Lists(t, listing)
    ensures d == SourceDigest(tools, t)
  {
    ListingOrderIsIrrelevant(t, listing);
    var files := SourceContentFiles(t, listing);
    var fed := FeedFiles(t, files);
    d := tools.digest(fed);
  }

  // ---------------------------------------------------------------- provenance records

  const ARTIFACT := "mixle.build_provenance/v1"
  const UNKNOWN := "unknown"

  /** What the environment and git say, stripped and lower-cased; a failed git call says nothing. */
  datatype Origin = Origin(
    declaredCommit: string, declaredTree: string, gitCommit: Option<string>, gitTree: Option<string>,
    dirty: Option<bool>,
    isCheckout: bool)

  predicate IsHex40(s: string) {
    |s| == 40 && forall c :: c in s ==> ('0' <= c <= '9') || ('a' <= c <= 'f')
  }

  /** The declared identity when it is well formed, otherwise git's, otherwise unknown. */
  function Identity(declared: string, git: Option<string>): string {
    if IsHex40(declared) then declared
    else if git.Some? && |git.value| == 40 then git.value
    else UNKNOWN
  }

  function Universe(where_: string): string {
    "pyproject.toml, setup.py, and mixle/**/*.{json,py,pyx} " + where_
  }

  /** The record of the tree that is being built from. */
  ghost function Payload(tools: Tools, t: Tree, o: Origin): Record {
    PayloadOf(o, SourceDigest(tools, t), |SourceFiles(t)|)
  }

  function PayloadOf(o: Origin, digest: string, count: nat): Record {
    map[
      "artifact" := Text(ARTIFACT),
      "source_commit" := Text(Identity(o.declaredCommit, o.gitCommit)),
      "source_tree" := Text(Identity(o.declaredTree, o.gitTree)),
      "source_dirty" := if o.dirty.Some? then Flag(o.dirty.value) else Null,
      "source_content_sha256" := Text(digest),
      "source_content_file_count" := Count(count),
      "source_content_universe" :=
        Text(Universe(if o.isCheckout then "present in the git checkout" else "present in the sdist-packaged tree"))]
  }

  function WithPacked(r: Record, digest: string, count: nat): Record {
    r["sdist_content_sha256" := Text(digest)]["sdist_content_file_count" := Count(count)]
      ["sdist_content_universe" := Text(Universe("shipped in this sdist"))]
  }

  /** The record that a source distribution ships: the checkout's, with the digest of what is packed. */
  ghost function SdistRecord(tools: Tools, checkout: Tree, packed: Tree, o: Origin): Record {
    WithPacked(Payload(tools, checkout, o), SourceDigest(tools, packed), |SourceFiles(packed)|)
  }

  predicate HasText(r: Record, key: string) {
    key in r && r[key].Text?
  }

  /** A record whose form allows it to be adopted. */
  predicate Adoptable(r: Record) {
    "artifact" in r && r["artifact"] == Text(ARTIFACT)
    && HasText(r, "source_commit") && IsHex40(r["source_commit"].text)
    && HasText(r, "sdist_content_sha256") && |r["sdist_content_sha256"].text| == 64
  }

  /** The shipped record, only if it still describes this tree's contents. */
  ghost function Carried(tools: Tools, t: Tree): Option<Record> {
    if Provenance() !in t then None
    else
      match tools.parse(t[Provenance()])
      case Malformed => None
      case NotAnObject => None
      case Object(r) =>
        if Adoptable(r) && r["sdist_content_sha256"].text == SourceDigest(tools, t) then Some(r) else None
  }

  method CarriedProvenance(tools: Tools, t: Tree, listing: seq<seq<Name>>) returns (r: Option<Record>)
    requires Lists(t, listing)
    ensures r == Carried(tools, t)
  {
    if Provenance() !in t { return None; }
    var payload := tools.parse(t[Provenance()]);
    if !payload.Object? || !Adoptable(payload.record) { return None; }
    var now := SourceContentDigest(tools, t, listing);
    return if payload.record["sdist_content_sha256"].text != now then None else Some(payload.record);
  }

  function CopyKey(from: Record, to: Record, key: string): Record {
    if key in from then to[key := from[key]] else to
  }

  function CopyPacked(from: Record, to: Record): Record {
    CopyKey(from, CopyKey(from, CopyKey(from, to, "sdist_content_sha256"), "sdist_content_file_count"),
      "sdist_content_universe")
  }

  /** The record that a wheel built from a tree carries. */
  ghost function WheelRecord(tools: Tools, t: Tree, o: Origin): Record {
    var own := Payload(tools, t, o);
    var carried := Carried(tools, t);
    if carried.None? then own
    else if Identity(o.declaredCommit, o.gitCommit) != UNKNOWN then CopyPacked(carried.value, own)
    else carried.value["source_content_carried_through_sdist" := Flag(true)]
  }

  method BuildRecord(tools: Tools, t: Tree, listing: seq<seq<Name>>, o: Origin) returns (r: Record)
    requires Lists(t, listing)
    ensures r == WheelRecord(tools, t, o)
  {
    var digest := SourceContentDigest(tools, t, listing);
    ListingOrderIsIrrelevant(t, listing);
    r := PayloadOf(o, digest, |SourceContentFiles(t, listing)|);
    CommitOf(o, digest, |SourceContentFiles(t, listing)|);
    var shipped := CarriedProvenance(tools, t, listing);
    if r["source_commit"] != Text(UNKNOWN) {
      if shipped.Some? { r := CopyPacked(shipped.value, r); }
    } else if shipped.Some? {
      r := shipped.value["source_content_carried_through_sdist" := Flag(true)];
    }
  }

  lemma CommitOf(o: Origin, digest: string, count: nat)
    ensures "source_commit" in PayloadOf(o, digest, count)
    ensures PayloadOf(o, digest, count)["source_commit"] == Text(Identity(o.declaredCommit, o.gitCommit))
  {
  }

  lemma {:induction false} FilesAreCounted(paths: set<seq<Name>>)
    ensures |FilesOf(paths)| == |paths|
  {
    var files := FilesOf(paths);
    AscendingCount(files);
    assert (set p | p in files) == paths;
  }

  lemma {:induction false} AscendingCount(files: seq<seq<Name>>)
    requires Ascending(files)
    ensures |set p | p in files| == |files|
  {
    if files != [] {
      var rest := files[1..];
      NotInTail(files);
      AscendingCount(rest);
      assert files == [files[0]] + rest;
      assert (set p | p in files) == {files[0]} + (set p | p in rest);
    }
  }

  /** What a fresh record says of the tree it is built from: the hash of its source files, one after another, and how
      many they are. */
  lemma PayloadSays(tools: Tools, t: Tree, o: Origin)
    ensures SaysOfTree(Payload(tools, t, o), o, tools.digest(SourceStream(t)), |Selected(t)|)
  {
    FilesAreCounted(Selected(t).Keys);
    assert |Selected(t).Keys| == |Selected(t)|;
    PayloadFields(o, tools.digest(SourceStream(t)), |Selected(t)|);
  }

  predicate SaysOfTree(r: Record, o: Origin, digest: string, count: nat) {
    && r.Keys == {"artifact", "source_commit", "source_tree", "source_dirty", "source_content_sha256",
                  "source_content_file_count", "source_content_universe"}
    && r["artifact"] == Text("mixle.build_provenance/v1")
    && r["source_content_sha256"] == Text(digest) && r["source_content_file_count"] == Count(count)
    && r["source_dirty"] == (match o.dirty case Some(b) => Flag(b) case None => Null)
  }

  lemma PayloadFields(o: Origin, digest: string, count: nat)
    ensures SaysOfTree(PayloadOf(o, digest, count), o, digest, count)
  {
  }

  /** What a source distribution adds to the checkout's record: the same of the files it packs. */
  lemma SdistSays(tools: Tools, checkout: Tree, packed: Tree, o: Origin)
    ensures AddsPacked(
      Payload(tools, checkout, o), SdistRecord(tools, checkout, packed, o), tools.digest(SourceStream(packed)),
      |Selected(packed)|)
  {
    FilesAreCounted(Selected(packed).Keys);
    assert |Selected(packed).Keys| == |Selected(packed)|;
    PackedIsAdded(Payload(tools, checkout, o), tools.digest(SourceStream(packed)), |Selected(packed)|);
  }

  predicate AddsPacked(own: Record, r: Record, digest: string, count: nat) {
    var added := {"sdist_content_sha256", "sdist_content_file_count", "sdist_content_universe"};
    && r.Keys == own.Keys + added && (forall key :: key in own && key !in added ==> r[key] == own[key])
    && r["sdist_content_sha256"] == Text(digest) && r["sdist_content_file_count"] == Count(count)
  }

  lemma PackedIsAdded(own: Record, digest: string, count: nat)
    ensures AddsPacked(own, WithPacked(own, digest, count), digest, count)
  {
    assert |"sdist_content_sha256"| == 20 && |"sdist_content_file_count"| == 24 && |"sdist_content_universe"| == 22;
  }

  /** A build that is told a well-formed commit, or else finds one through git, records that one in its wheel, whatever
      record the tree ships. */
  lemma WheelNamesOwnCommit(tools: Tools, t: Tree, o: Origin, commit: string)
    requires if IsHex40(o.declaredCommit) then commit == o.declaredCommit
      else o.gitCommit == Some(commit) && |commit| == 40
    ensures "source_commit" in WheelRecord(tools, t, o) && WheelRecord(tools, t, o)["source_commit"] == Text(commit)
  {
    var own := Payload(tools, t, o);
    CommitOf(o, SourceDigest(tools, t), |SourceFiles(t)|);
    assert commit != UNKNOWN by { assert |UNKNOWN| == 7; }
    if Carried(tools, t).Some? { CopiedKeys(Carried(tools, t).value, own, "source_commit"); }
  }

  /** A build that is told none and finds none, in a tree that ships no record, names no commit. */
  lemma WheelOfNoOrigin(tools: Tools, t: Tree, o: Origin)
    requires !IsHex40(o.declaredCommit) && (o.gitCommit.Some? ==> |o.gitCommit.value| != 40) && Provenance() !in t
    ensures "source_commit" in WheelRecord(tools, t, o) && WheelRecord(tools, t, o)["source_commit"] == Text("unknown")
  {
    CommitOf(o, SourceDigest(tools, t), |SourceFiles(t)|);
  }

  // ---------------------------------------------------------------- what a carried record vouches for

  predicate NoCollision(tools: Tools, a: Bytes, b: Bytes) {
    tools.digest(a) == tools.digest(b) ==> a == b
  }

  /** The tree holds the record that a source distribution shipped, and the tools read it back. */
  ghost predicate Ships(tools: Tools, t: Tree, checkout: Tree, packed: Tree, o: Origin) {
    var r := SdistRecord(tools, checkout, packed, o);
    Provenance() in t && t[Provenance()] == tools.render(r) && tools.parse(tools.render(r)) == Object(r)
    && |SourceDigest(tools, packed)| == 64 && NoCollision(tools, SourceStream(t), SourceStream(packed))
  }

  lemma SdistFields(o: Origin, digest: string, count: nat, packed: string, packedCount: nat)
    ensures var r := WithPacked(PayloadOf(o, digest, count), packed, packedCount);
      r["artifact"] == Text(ARTIFACT) && r["source_commit"] == Text(Identity(o.declaredCommit, o.gitCommit))
      && r["sdist_content_sha256"] == Text(packed)
  {
  }

  /** A record that a source distribution shipped is adopted exactly when the commit it names is well formed and the
      tree's selected files are exactly those that were packed. */
  lemma CarriedIffUnchanged(tools: Tools, t: Tree, checkout: Tree, packed: Tree, o: Origin)
    requires WellFormed(t) && WellFormed(packed) && Ships(tools, t, checkout, packed, o)
    ensures Carried(tools, t) ==
      if IsHex40(Identity(o.declaredCommit, o.gitCommit)) && Selected(t) == Selected(packed)
      then Some(SdistRecord(tools, checkout, packed, o)) else None
  {
    var packedDigest := SourceDigest(tools, packed);
    SdistFields(o, SourceDigest(tools, checkout), |SourceFiles(checkout)|, packedDigest, |SourceFiles(packed)|);
    SameStreamIffSameFiles(t, packed);
  }

  /** Where the build can name no commit of its own, the wheel's record is the shipped one, marked as carried, exactly
      when nothing that was packed has changed; otherwise the wheel's commit stays unknown. */
  lemma WheelOfASourceDistribution(tools: Tools, t: Tree, checkout: Tree, packed: Tree, o: Origin, build: Origin)
    requires WellFormed(t) && WellFormed(packed) && Ships(tools, t, checkout, packed, o)
    requires Identity(build.declaredCommit, build.gitCommit) == UNKNOWN
    ensures WheelRecord(tools, t, build) ==
      if IsHex40(Identity(o.declaredCommit, o.gitCommit)) && Selected(t) == Selected(packed)
      then SdistRecord(tools, checkout, packed, o)["source_content_carried_through_sdist" := Flag(true)]
      else Payload(tools, t, build)
  {
    CarriedIffUnchanged(tools, t, checkout, packed, o);
  }

  lemma CopiedKeys(from: Record, to: Record, key: string)
    ensures key == "sdist_content_sha256" && key in from ==>
      key in CopyPacked(from, to) && CopyPacked(from, to)[key] == from[key]
    ensures key == "source_commit" && key in to ==> key in CopyPacked(from, to) && CopyPacked(from, to)[key] == to[key]
  {
  }

  /** Whatever record was found, a wheel names a digest of packed files only if it is the digest of this very tree. */
  lemma PackedDigestIsThisTrees(tools: Tools, t: Tree, o: Origin)
    requires "sdist_content_sha256" in WheelRecord(tools, t, o)
    ensures WheelRecord(tools, t, o)["sdist_content_sha256"] == Text(SourceDigest(tools, t))
  {
    var carried := Carried(tools, t);
    if carried.Some? {
      CopiedKeys(carried.value, Payload(tools, t, o), "sdist_content_sha256");
    } else {
      FreshNamesNoPack(o, SourceDigest(tools, t), |SourceFiles(t)|);
    }
  }

  lemma FreshNamesNoPack(o: Origin, digest: string, count: nat)
    ensures "sdist_content_sha256" !in PayloadOf(o, digest, count)
  {
  }

  // ---------------------------------------------------------------- making the release tree

  type Names = map<seq<Name>, nat>

  /** The release tree with its provenance in place. */
  ghost function ReleaseTree(tools: Tools, checkout: Tree, packed: Tree, o: Origin): Tree {
    packed[Provenance() := tools.render(SdistRecord(tools, checkout, packed, o))]
  }

  lemma ReleaseTreeIs(tools: Tools, checkout: Tree, packed: Tree, o: Origin, r: Record)
    requires r == SdistRecord(tools, checkout, packed - {Provenance()}, o)
    ensures (packed - {Provenance()})[Provenance() := tools.render(r)] == ReleaseTree(tools, checkout, packed, o)
  {
    PackedWithoutProvenance(tools, checkout, packed, o);
  }

  lemma PackedWithoutProvenance(tools: Tools, checkout: Tree, packed: Tree, o: Origin)
    ensures SdistRecord(tools, checkout, packed - {Provenance()}, o) == SdistRecord(tools, checkout, packed, o)
  {
    ProvenanceIsNotDigested(packed, Provenance(), []);
    SelectionFixesStream(packed - {Provenance()}, packed);
  }

  lemma ProvenanceIsPath()
    ensures IsPath(Provenance())
  {
    assert |Ascii("mixle")| == 5 && |Ascii("_build_provenance.json")| == 22;
    assert Provenance()[1..] == [Provenance()[1]];
  }

  /** A release tree that is unpacked and built from unchanged gives its commit to the wheel. */
  lemma UnchangedReleaseKeepsItsCommit(tools: Tools, checkout: Tree, packed: Tree, o: Origin, build: Origin)
    requires WellFormed(packed) && IsHex40(Identity(o.declaredCommit, o.gitCommit))
    requires Identity(build.declaredCommit, build.gitCommit) == UNKNOWN && |SourceDigest(tools, packed)| == 64
    requires var r := SdistRecord(tools, checkout, packed, o); tools.parse(tools.render(r)) == Object(r)
    ensures WheelRecord(tools, ReleaseTree(tools, checkout, packed, o), build) ==
      SdistRecord(tools, checkout, packed, o)["source_content_carried_through_sdist" := Flag(true)]
  {
    var t := ReleaseTree(tools, checkout, packed, o);
    ProvenanceIsPath();
    ProvenanceIsNotDigested(packed, Provenance(), t[Provenance()]);
    SelectionFixesStream(t, packed);
    WheelOfASourceDistribution(tools, t, checkout, packed, o, build);
  }

  /** The files that names link to. */
  function Contents(names: Names, blocks: map<nat, Octets>): Tree
    requires forall p :: p in names ==> names[p] in blocks
  {
    map p | p in names :: blocks[names[p]]
  }

  /** Writing a new block leaves every linked file alone. */
  lemma NewBlock(names: Names, blocks: map<nat, Octets>, id: nat, data: Octets)
    requires forall p :: p in names ==> names[p] in blocks
    requires id !in blocks
    ensures Contents(names, blocks[id := data]) == Contents(names, blocks)
  {
  }

  /** Linking a name to a new block adds one file. */
  lemma NewFile(names: Names, blocks: map<nat, Octets>, p: seq<Name>, id: nat, data: Octets)
    requires (forall q :: q in names ==> names[q] in blocks) && id !in blocks
    ensures Contents(names[p := id], blocks[id := data]) == Contents(names, blocks)[p := data]
  {
  }

  /** A checkout and a release tree on one disk. The release tree may hold hard links to the checkout's files. */
  class Disk {
    var checkout: Names
    var release: Names
    var blocks: map<nat, Octets>
    var next: nat

    predicate Valid()
      reads this
    {
      (forall p :: p in checkout ==> checkout[p] in blocks)
      && (forall p :: p in release ==> release[p] in blocks)
      && forall b :: b in blocks ==> b < next
    }

    function Files(names: Names): Tree
      reads this
      requires forall p :: p in names ==> names[p] in blocks
    {
      Contents(names, blocks)
    }

    /** Removes a name from the release tree, and with it any link to the checkout. */
    method UnlinkRelease(p: seq<Name>)
      requires Valid()
      modifies this`release
      ensures Valid() && release == old(release) - {p}
      ensures Files(checkout) == old(Files(checkout)) && Files(release) == old(Files(release)) - {p}
    {
      if p in release {
        release := release - {p};
      }
    }

    /** Writes through whatever the name links to, or into a file of its own. */
    method WriteRelease(p: seq<Name>, data: Octets)
      requires Valid()
      modifies this`release, this`blocks, this`next
      ensures Valid()
      ensures p in old(release) ==> release == old(release) && blocks == old(blocks)[release[p] := data]
      ensures p !in old(release) ==> release == old(release)[p := old(next)] && blocks == old(blocks)[old(next) := data]
      ensures p !in old(release) ==>
        Files(checkout) == old(Files(checkout)) && Files(release) == old(Files(release))[p := data]
    {
      if p in release {
        blocks := blocks[release[p] := data];
      } else {
        NewBlock(checkout, blocks, next, data);
        NewFile(release, blocks, p, next, data);
        release := release[p := next];
        blocks := blocks[next := data];
        next := next + 1;
      }
    }

    /** Writes the provenance of the release tree into it. The checkout stays byte for byte as it was, even where the
        release tree's provenance file was a link to the checkout's. */
    method MakeReleaseTree(tools: Tools, o: Origin, checkoutListing: seq<seq<Name>>, releaseListing: seq<seq<Name>>)
      requires Valid() && Lists(Files(checkout), checkoutListing)
      requires Lists(Files(release) - {Provenance()}, releaseListing)
      modifies this
      ensures Valid() && Files(checkout) == old(Files(checkout))
      ensures Files(release) == ReleaseTree(tools, old(Files(checkout)), old(Files(release)), o)
    {
      var p := Provenance();
      ghost var source, packed := Files(checkout), Files(release);
      UnlinkRelease(p);
      var r := Describe(tools, Files(checkout), checkoutListing, Files(release), releaseListing, o);
      var data := tools.render(r);
      WriteRelease(p, data);
      ReleaseTreeIs(tools, source, packed, o, r);
    }
  }

  /** The record for a checkout and for what is packed, whose provenance file has just been removed. */
  method Describe(
    tools: Tools, checkout: Tree, checkoutListing: seq<seq<Name>>, packed: Tree, packedListing: seq<seq<Name>>,
    o: Origin)
    returns (r: Record)
    requires Lists(checkout, checkoutListing) && Lists(packed, packedListing)
    ensures r == SdistRecord(tools, checkout, packed, o)
  {
    var digest := SourceContentDigest(tools, checkout, checkoutListing);
    var packedDigest := SourceContentDigest(tools, packed, packedListing);
    ListingOrderIsIrrelevant(checkout, checkoutListing);
    ListingOrderIsIrrelevant(packed, packedListing);
    r := PayloadOf(o, digest, |SourceContentFiles(checkout, checkoutListing)|);
    r := WithPacked(r, packedDigest, |SourceContentFiles(packed, packedListing)|);
  }
}
