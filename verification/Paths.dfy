/** Slash-separated names: splitting, joining and the lexical cleaning that Go's
    path.Clean performs, with the algebra every other module relies on. */
module Paths {

  /** strings.Split with a one-character separator. */
  function Split(s: string, c: char): (parts: seq<string>)
    ensures |parts| >= 1
  {
    if s == "" then [""]
    else if s[0] == c then [""] + Split(s[1..], c)
    else
      var rest := Split(s[1..], c);
      [[s[0]] + rest[0]] + rest[1..]
  }

  /** strings.Join with a one-character separator; the empty list joins to "". */
  function Join(parts: seq<string>, c: char): string {
    if parts == [] then ""
    else if |parts| == 1 then parts[0]
    else parts[0] + [c] + Join(parts[1..], c)
  }

  ghost predicate Without(parts: seq<string>, c: char) {
    forall i | 0 <= i < |parts| :: c !in parts[i]
  }

  lemma {:induction false} SplitWithout(s: string, c: char)
    ensures Without(Split(s, c), c)
  {
    if s != "" { SplitWithout(s[1..], c); }
  }

  lemma {:induction false} JoinSplit(s: string, c: char)
    ensures Join(Split(s, c), c) == s
  {
    if s != "" {
      JoinSplit(s[1..], c);
      var rest := Split(s[1..], c);
      if s[0] != c {
        var parts := [[s[0]] + rest[0]] + rest[1..];
        if |rest| == 1 {
          assert s == [s[0]] + s[1..];
        } else {
          assert parts[1..] == rest[1..];
          assert Join(parts, c) == [s[0]] + (rest[0] + [c] + Join(rest[1..], c));
        }
      } else {
        assert ([""] + rest)[1..] == rest;
        assert s == [c] + s[1..];
      }
    }
  }

  lemma {:induction false} SplitPlain(s: string, c: char)
    requires c !in s
    ensures Split(s, c) == [s]
  {
    if s != "" {
      SplitPlain(s[1..], c);
      assert [s[0]] + s[1..] == s;
    }
  }

  lemma SplitCons(x: char, s: string, c: char)
    ensures x == c ==> Split([x] + s, c) == [""] + Split(s, c)
    ensures x != c ==> Split([x] + s, c) == [[x] + Split(s, c)[0]] + Split(s, c)[1..]
  {
    assert ([x] + s)[1..] == s;
  }

  lemma HeadSplice(x: string, rest: seq<string>, tail: seq<string>)
    requires rest != []
    ensures [x + (rest + tail)[0]] + (rest + tail)[1..] == ([x + rest[0]] + rest[1..]) + tail
    ensures [""] + (rest + tail) == ([""] + rest) + tail
  {
  }

  /** Splitting distributes over a separator placed between two strings. */
  lemma {:induction false} SplitConcat(a: string, b: string, c: char)
    ensures Split(a + [c] + b, c) == Split(a, c) + Split(b, c)
  {
    if a == "" {
      assert a + [c] + b == [c] + b;
      SplitCons(c, b, c);
    } else {
      var x, a', rest, tail := a[0], a[1..], Split(a[1..], c), Split(b, c);
      SplitConcat(a', b, c);
      assert a + [c] + b == [x] + (a' + [c] + b) && a == [x] + a';
      SplitCons(x, a' + [c] + b, c);
      SplitCons(x, a', c);
      HeadSplice([x], rest, tail);
    }
  }

  lemma {:induction false} SplitJoin(parts: seq<string>, c: char)
    requires parts != [] && Without(parts, c)
    ensures Split(Join(parts, c), c) == parts
  {
    SplitPlain(parts[0], c);
    if |parts| > 1 {
      SplitJoin(parts[1..], c);
      SplitConcat(parts[0], Join(parts[1..], c), c);
    }
  }

  lemma {:induction false} JoinConcat(a: seq<string>, b: seq<string>, c: char)
    requires a != [] && b != []
    ensures Join(a + b, c) == Join(a, c) + [c] + Join(b, c)
  {
    if |a| > 1 {
      JoinConcat(a[1..], b, c);
      assert (a + b)[1..] == a[1..] + b;
    } else {
      assert (a + b)[1..] == b;
    }
  }

  lemma SplitInjective(s: string, t: string, c: char)
    requires Split(s, c) == Split(t, c)
    ensures s == t
  {
    JoinSplit(s, c);
    JoinSplit(t, c);
  }

  /** A path segment that names something: not empty, not "." and not "..". */
  predicate Proper(seg: string) {
    seg != "" && seg != "." && seg != ".." && '/' !in seg
  }

  predicate ProperPath(segs: seq<string>) {
    forall i | 0 <= i < |segs| :: Proper(segs[i])
  }

  /** One step of lexical cleaning: push a segment on the cleaned prefix. */
  function Push(acc: seq<string>, seg: string, rooted: bool): seq<string> {
    if seg == "" || seg == "." then acc
    else if seg == ".." then
      if acc != [] && acc[|acc| - 1] != ".." then acc[..|acc| - 1]
      else if rooted then acc
      else acc + [".."]
    else acc + [seg]
  }

  function Norm(segs: seq<string>, rooted: bool, acc: seq<string>): seq<string>
    decreases |segs|
  {
    if segs == [] then acc else Norm(segs[1..], rooted, Push(acc, segs[0], rooted))
  }

  predicate Rooted(p: string) {
    p != "" && p[0] == '/'
  }

  /** path.Clean: the shortest equivalent path by lexical processing. */
  function Clean(p: string): string {
    var n := Norm(Split(p, '/'), Rooted(p), []);
    if Rooted(p) then "/" + Join(n, '/')
    else if n == [] then "."
    else Join(n, '/')
  }

  /** path.Join of two elements: empty elements are ignored. */
  function PathJoin(a: string, b: string): string {
    if a == "" && b == "" then ""
    else if a == "" then Clean(b)
    else if b == "" then Clean(a)
    else Clean(a + "/" + b)
  }

  /** The shape of a cleaned segment list: ".." only as a prefix of an unrooted one. */
  ghost predicate Normal(segs: seq<string>, rooted: bool) {
    forall i | 0 <= i < |segs| ::
      Proper(segs[i]) || (segs[i] == ".." && !rooted && forall j | 0 <= j < i :: segs[j] == "..")
  }

  lemma {:induction false} NormIsNormal(segs: seq<string>, rooted: bool, acc: seq<string>)
    requires Normal(acc, rooted) && Without(segs, '/')
    ensures Normal(Norm(segs, rooted, acc), rooted)
    decreases |segs|
  {
    if segs != [] {
      NormIsNormal(segs[1..], rooted, Push(acc, segs[0], rooted));
    }
  }

  lemma {:induction false} NormConcat(a: seq<string>, b: seq<string>, rooted: bool, acc: seq<string>)
    ensures Norm(a + b, rooted, acc) == Norm(b, rooted, Norm(a, rooted, acc))
    decreases |a|
  {
    if a == [] {
      assert a + b == b;
    } else {
      assert (a + b)[1..] == a[1..] + b;
      NormConcat(a[1..], b, rooted, Push(acc, a[0], rooted));
    }
  }

  /** Cleaning leaves a normal list alone. */
  lemma {:induction false} NormFixed(segs: seq<string>, i: nat, rooted: bool)
    requires Normal(segs, rooted) && i <= |segs|
    ensures Norm(segs[i..], rooted, segs[..i]) == segs
    decreases |segs| - i
  {
    if i < |segs| {
      assert segs[i..][1..] == segs[i + 1..];
      assert segs[..i + 1] == segs[..i] + [segs[i]];
      NormFixed(segs, i + 1, rooted);
    }
  }

  /** Proper segments are simply appended. */
  lemma {:induction false} NormProper(segs: seq<string>, rooted: bool, acc: seq<string>)
    requires ProperPath(segs)
    ensures Norm(segs, rooted, acc) == acc + segs
    decreases |segs|
  {
    if segs != [] {
      NormProper(segs[1..], rooted, acc + [segs[0]]);
      assert acc + segs == acc + [segs[0]] + segs[1..];
    } else {
      assert acc + segs == acc;
    }
  }

  lemma SplitRooted(s: string)
    ensures Split("/" + s, '/') == [""] + Split(s, '/')
  {
    assert ("/" + s)[1..] == s;
  }

  /** The first character of a joined proper list is not a slash. */
  lemma JoinNotRooted(segs: seq<string>)
    requires segs == [] || (segs[0] != "" && '/' !in segs[0])
    ensures !Rooted(Join(segs, '/'))
    ensures segs != [] ==> Join(segs, '/') != ""
  {
    if segs != [] {
      assert Join(segs, '/')[0] == segs[0][0];
    }
  }

  lemma NormalHead(segs: seq<string>, rooted: bool)
    requires Normal(segs, rooted)
    ensures segs == [] || (segs[0] != "" && '/' !in segs[0])
    ensures Without(segs, '/')
  {
    assert '/' !in "..";
  }

  /** What the segments of a cleaned path are, as a list. */
  function Segs(p: string): seq<string> {
    Norm(Split(p, '/'), Rooted(p), [])
  }

  lemma SegsNormal(p: string)
    ensures Normal(Segs(p), Rooted(p))
  {
    SplitWithout(p, '/');
    NormIsNormal(Split(p, '/'), Rooted(p), []);
  }

  /** Cleaning keeps rootedness and the cleaned segments: Clean is idempotent. */
  lemma CleanKeepsSegs(p: string)
    ensures Rooted(Clean(p)) == Rooted(p)
    ensures Segs(Clean(p)) == Segs(p)
    ensures Clean(Clean(p)) == Clean(p)
  {
    var n := Segs(p);
    SegsNormal(p);
    NormalHead(n, Rooted(p));
    JoinNotRooted(n);
    if n == [] {
      SplitRooted("");
      SplitPlain(".", '/');
      assert Norm([""], true, []) == Norm([], true, []);
      assert Norm(["", ""], true, []) == Norm([""], true, []);
      assert Norm(["."], false, []) == Norm([], false, []);
    } else {
      SplitJoin(n, '/');
      SplitRooted(Join(n, '/'));
      NormFixed(n, 0, Rooted(p));
      assert n[0..] == n && n[..0] == [];
      if Rooted(p) {
        assert ([""] + n)[1..] == n;
      }
    }
  }

  /** validRelPath (internal/artifact/manifest.go): relative, clean, no traversal. */
  predicate ValidRelPath(p: string) {
    && p != ""
    && p[0] != '/'
    && p == Clean(p)
    && ".." !in Split(p, '/')
  }

  /** The accepted names are exactly "." and the slash-joins of proper segments. */
  lemma ValidRelPathIff(p: string)
    ensures ValidRelPath(p) <==> p == "." || ProperPath(Split(p, '/'))
  {
    var parts := Split(p, '/');
    JoinSplit(p, '/');
    if ValidRelPath(p) && p != "." {
      var n := Segs(p);
      SegsNormal(p);
      NormalHead(n, false);
      SplitJoin(n, '/');
      assert forall i | 0 <= i < |parts| :: parts[i] in parts;
    }
    if ProperPath(parts) {
      NormProper(parts, Rooted(p), []);
      JoinNotRooted(parts);
      assert [] + parts == parts;
    }
    if p == "." {
      SplitPlain(".", '/');
      assert Norm(["."], false, []) == Norm([], false, []);
    }
  }

  /** Cleaning a prefix first changes nothing: Clean(Clean(a)/b) = Clean(a/b). */
  lemma CleanPrefix(a: string, b: string)
    requires a != ""
    ensures Clean(Clean(a) + "/" + b) == Clean(a + "/" + b)
    ensures Segs(a + "/" + b) == Norm(Split(b, '/'), Rooted(a), Segs(a))
  {
    CleanKeepsSegs(a);
    var r := Rooted(a);
    var c := Clean(a);
    SplitConcat(a, b, '/');
    NormConcat(Split(a, '/'), Split(b, '/'), r, []);
    SplitConcat(c, b, '/');
    NormConcat(Split(c, '/'), Split(b, '/'), r, []);
    assert Rooted(a + "/" + b) == r && Rooted(c + "/" + b) == Rooted(c);
  }

  /** Appending a validated name to a cleaned rooted path is textual concatenation. */
  lemma CleanAppend(p: string, rel: string)
    requires Rooted(p) && p == Clean(p) && p != "/"
    requires ValidRelPath(rel) && rel != "."
    ensures Clean(p + "/" + rel) == p + "/" + rel
    ensures Segs(p + "/" + rel) == Segs(p) + Split(rel, '/')
  {
    ValidRelPathIff(rel);
    CleanPrefix(p, rel);
    NormProper(Split(rel, '/'), true, Segs(p));
    JoinSplit(rel, '/');
    assert Segs(p) != [];
    JoinConcat(Segs(p), Split(rel, '/'), '/');
  }
}
