/** internal/artifact/uri.go: artifact locations, over net/url's split of a reference as
    section 3 of RFC 3986 lays it out, and Go's lexical path cleaning. */
module Uri {
  import opened Paths
  import opened Manifests

  const FUSE := "fuse"
  const FILE := "file"

  datatype URI = URI(scheme: string, path: string, dir: bool)

  // ----- splitting a reference -----

  /** Where the first c is; the length of s without one. */
  function IndexOf(s: string, c: char, i: nat): (r: nat)
    requires i <= |s|
    ensures i <= r <= |s| && (r < |s| ==> s[r] == c)
    ensures forall j | i <= j < r :: s[j] != c
    decreases |s| - i
  {
    if i == |s| || s[i] == c then i else IndexOf(s, c, i + 1)
  }

  /** strings.Cut, the part before the first c; all of s without one. */
  function Before(s: string, c: char): (r: string)
    ensures r <= s && c !in r
    ensures |r| < |s| ==> s[|r|] == c
  {
    s[..IndexOf(s, c, 0)]
  }

  /** strings.Cut, the part after the first c; empty without one. */
  function After(s: string, c: char): string {
    var b := Before(s, c);
    if |b| < |s| then s[|b| + 1..] else ""
  }

  predicate Control(c: char) { c < ' ' || c == '\U{7F}' }

  predicate HasControl(s: string) { exists i | 0 <= i < |s| :: Control(s[i]) }

  predicate Letter(c: char) { 'a' <= c <= 'z' || 'A' <= c <= 'Z' }

  predicate Digit(c: char) { '0' <= c <= '9' }

  /** Where the scheme ends: the first colon, after nothing but scheme characters. */
  function SchemeEnd(s: string, i: nat): (r: Option<nat>)
    requires i <= |s|
    ensures r.Some? ==> i <= r.value < |s| && s[r.value] == ':' && r.value > 0
    decreases |s| - i
  {
    if i == |s| then None
    else if Letter(s[i]) then SchemeEnd(s, i + 1)
    else if Digit(s[i]) || s[i] in "+-." then (if i == 0 then None else SchemeEnd(s, i + 1))
    else if s[i] == ':' && i > 0 then Some(i)
    else None
  }

  function Lower(s: string): string {
    seq(|s|, i requires 0 <= i < |s| => if 'A' <= s[i] <= 'Z' then ((s[i] as int) + 32) as char else s[i])
  }

  predicate Hex(c: char) { Digit(c) || 'a' <= c <= 'f' || 'A' <= c <= 'F' }

  function HexValue(c: char): (v: nat)
    requires Hex(c)
    ensures v < 16
  {
    if Digit(c) then (c as int) - ('0' as int)
    else if 'a' <= c <= 'f' then (c as int) - ('a' as int) + 10
    else (c as int) - ('A' as int) + 10
  }

  function Code(x: char, y: char): char
    requires Hex(x) && Hex(y)
  {
    (16 * HexValue(x) + HexValue(y)) as char
  }

  /** From position i on, every percent sign starts an escape of two hexadecimal digits. */
  predicate EscapedFrom(s: string, i: nat)
    requires i <= |s|
    decreases |s| - i
  {
    if i == |s| then true
    else if s[i] == '%' then i + 2 < |s| && Hex(s[i + 1]) && Hex(s[i + 2]) && EscapedFrom(s, i + 3)
    else EscapedFrom(s, i + 1)
  }

  function DecodeFrom(s: string, i: nat): string
    requires i <= |s| && EscapedFrom(s, i)
    decreases |s| - i
  {
    if i == |s| then ""
    else if s[i] == '%' then [Code(s[i + 1], s[i + 2])] + DecodeFrom(s, i + 3)
    else [s[i]] + DecodeFrom(s, i + 1)
  }

  predicate WellEscaped(s: string) { EscapedFrom(s, 0) }

  function Unescape(s: string): string
    requires WellEscaped(s)
  {
    DecodeFrom(s, 0)
  }

  predicate UserinfoChar(c: char) { Letter(c) || Digit(c) || c in "-._:~!$&'()*+,;=%@" }

  /** An authority without a host: empty, or user information alone. */
  predicate NoHost(authority: string) {
    authority == ""
    || (authority[|authority| - 1] == '@'
        && (forall i | 0 <= i < |authority| - 1 :: UserinfoChar(authority[i]))
        && WellEscaped(authority[..|authority| - 1]))
  }

  /** The path of what follows the scheme; None where it is opaque or has a host. */
  function PathPart(rest: string): Option<string> {
    if !Rooted(rest) then None
    else if |rest| >= 2 && rest[1] == '/' then
      var authority := Before(rest[2..], '/');
      if NoHost(authority) then Some(rest[2..][|authority|..]) else None
    else Some(rest)
  }

  /** What Parse makes of a scheme and a decoded path. */
  function FromPath(scheme: string, path: string): Option<URI> {
    if ".." in Split(path, '/') then None
    else
      var p := Clean(path);
      if p == "/" || p == "." || !Rooted(p) then None
      else Some(URI(scheme, p, path != "" && path[|path| - 1] == '/'))
  }

  /** What follows the scheme, up to any query. */
  function ParseRest(scheme: string, rest: string): Option<URI> {
    match PathPart(rest)
    case None => None
    case Some(p) => if WellEscaped(p) then FromPath(scheme, Unescape(p)) else None
  }

  /** A reference without its fragment. */
  function ParseBody(body: string): Option<URI> {
    match SchemeEnd(body, 0)
    case None => None
    case Some(k) =>
      var scheme := Lower(body[..k]);
      if scheme != FUSE && scheme != FILE then None else ParseRest(scheme, Before(body[k + 1..], '?'))
  }

  function Parse(raw: string): Option<URI> {
    var body := Before(raw, '#');
    if !WellEscaped(After(raw, '#')) || HasControl(body) then None else ParseBody(body)
  }

  function ToString(u: URI): string {
    u.scheme + "://" + u.path + (if u.dir then "/" else "")
  }

  // ----- what Parse accepts -----

  /** A path as Parse leaves it: rooted, clean, not the root, without traversal. */
  ghost predicate Usable(u: URI) {
    && (u.scheme == FUSE || u.scheme == FILE)
    && Rooted(u.path) && Clean(u.path) == u.path && u.path != "/"
    && Segs(u.path) != [] && ProperPath(Segs(u.path))
  }

  lemma RootedSegs(p: string)
    requires Rooted(p)
    ensures ProperPath(Segs(p)) && Clean(p) == "/" + Join(Segs(p), '/')
    ensures Clean(p) != "/" ==> Segs(p) != []
  {
    SegsNormal(p);
  }

  lemma ParseUsable(raw: string)
    requires Parse(raw).Some?
    ensures Usable(Parse(raw).value)
    ensures |raw| > 4 && raw[4] == ':' && Lower(raw[..4]) == Parse(raw).value.scheme
  {
    var body := Before(raw, '#');
    var k := SchemeEnd(body, 0).value;
    var p := PathPart(Before(body[k + 1..], '?')).value;
    var path := Unescape(p);
    CleanKeepsSegs(path);
    RootedSegs(path);
    assert |Lower(body[..k])| == k && raw[..k] == body[..k] && raw[k] == body[k];
  }

  /** What a decoded path must be: rooted, without traversal as it is written, and not the root.
      Then it keeps its segments, and a trailing slash makes it a directory. */
  lemma FromPathIff(scheme: string, path: string)
    ensures FromPath(scheme, path).Some? <==> Rooted(path) && ".." !in Split(path, '/') && Segs(path) != []
    ensures FromPath(scheme, path).Some? ==>
              var u := FromPath(scheme, path).value;
              && u.scheme == scheme && Segs(u.path) == Segs(path) && Clean(u.path) == u.path
              && (u.dir <==> path[|path| - 1] == '/')
  {
    CleanKeepsSegs(path);
    if Rooted(path) {
      RootedSegs(path);
      if Segs(path) != [] { LastOfJoin(Segs(path)); }
    } else {
      SegsNormal(path);
      NormalHead(Segs(path), false);
      JoinNotRooted(Segs(path));
    }
  }

  // ----- Parse undoes ToString -----

  lemma {:induction false} LettersThenColon(s: string, i: nat, k: nat)
    requires i <= k < |s| && k > 0 && s[k] == ':' && forall j | i <= j < k :: Letter(s[j])
    ensures SchemeEnd(s, i) == Some(k)
    decreases k - i
  {
    if i < k { LettersThenColon(s, i + 1, k); }
  }

  lemma {:induction false} DecodeShrinks(s: string, i: nat)
    requires i <= |s| && EscapedFrom(s, i)
    ensures |DecodeFrom(s, i)| <= |s| - i
    ensures (exists j :: i <= j < |s| && s[j] == '%') ==> |DecodeFrom(s, i)| <= |s| - i - 2
    decreases |s| - i
  {
    if i < |s| { DecodeShrinks(s, if s[i] == '%' then i + 3 else i + 1); }
  }

  lemma {:induction false} DecodePlain(s: string, i: nat)
    requires i <= |s| && forall j | i <= j < |s| :: s[j] != '%'
    ensures EscapedFrom(s, i) && DecodeFrom(s, i) == s[i..]
    decreases |s| - i
  {
    if i < |s| { DecodePlain(s, i + 1); }
  }

  lemma UnescapeShrinks(s: string)
    requires WellEscaped(s)
    ensures |Unescape(s)| <= |s| && ('%' in s ==> |Unescape(s)| <= |s| - 2)
  {
    DecodeShrinks(s, 0);
  }

  lemma PlainIsEscaped(s: string)
    requires '%' !in s
    ensures WellEscaped(s) && Unescape(s) == s
  {
    DecodePlain(s, 0);
  }

  /** What a list of segments takes, each with one separator. */
  function Size(parts: seq<string>): nat {
    if parts == [] then 0 else |parts[0]| + 1 + Size(parts[1..])
  }

  lemma {:induction false} SizeConcat(a: seq<string>, b: seq<string>)
    ensures Size(a + b) == Size(a) + Size(b)
  {
    if a == [] {
      assert a + b == b;
    } else {
      assert (a + b)[1..] == a[1..] + b;
      SizeConcat(a[1..], b);
    }
  }

  lemma {:induction false} SizeSplit(s: string, c: char)
    ensures Size(Split(s, c)) == |s| + 1
  {
    if s != "" {
      SizeSplit(s[1..], c);
      var rest := Split(s[1..], c);
      if s[0] == c {
        assert ([""] + rest)[1..] == rest;
      } else {
        assert ([[s[0]] + rest[0]] + rest[1..])[1..] == rest[1..];
      }
    }
  }

  lemma {:induction false} SizeJoin(parts: seq<string>, c: char)
    requires parts != []
    ensures |Join(parts, c)| + 1 == Size(parts)
  {
    if |parts| > 1 { SizeJoin(parts[1..], c); }
  }

  lemma {:induction false} NormShrinks(segs: seq<string>, rooted: bool, acc: seq<string>)
    ensures Size(Norm(segs, rooted, acc)) <= Size(acc) + Size(segs)
    decreases |segs|
  {
    if segs != [] {
      var next := Push(acc, segs[0], rooted);
      NormShrinks(segs[1..], rooted, next);
      SizeConcat(acc, [segs[0]]);
      SizeConcat(acc, [".."]);
      if acc != [] {
        assert acc == acc[..|acc| - 1] + [acc[|acc| - 1]];
        SizeConcat(acc[..|acc| - 1], [acc[|acc| - 1]]);
      }
    }
  }

  /** Cleaning never makes a rooted path longer. */
  lemma CleanShrinks(p: string)
    requires Rooted(p)
    ensures |Clean(p)| <= |p|
  {
    var parts := Split(p, '/');
    SplitRooted(p[1..]);
    assert p == "/" + p[1..] && parts == [""] + Split(p[1..], '/');
    assert parts[1..] == Split(p[1..], '/');
    SizeSplit(p[1..], '/');
    NormShrinks(parts[1..], true, []);
    if Segs(p) != [] { SizeJoin(Segs(p), '/'); }
  }

  lemma CleanTrailing(p: string)
    requires Rooted(p)
    ensures Clean(p + "/") == Clean(p) && Segs(p + "/") == Segs(p)
  {
    CleanPrefix(p, "");
    assert p + "/" + "" == p + "/";
    assert Norm([""], true, Segs(p)) == Norm([], true, Segs(p));
  }

  lemma UsableSplit(u: URI)
    requires Usable(u)
    ensures Split(u.path, '/') == [""] + Segs(u.path)
    ensures Split(u.path + "/", '/') == [""] + Segs(u.path) + [""]
  {
    var segs := Segs(u.path);
    RootedSegs(u.path);
    SplitJoin(segs, '/');
    SplitRooted(Join(segs, '/'));
    SplitConcat(u.path, "", '/');
    assert u.path + ['/'] + "" == u.path + "/";
  }

  /** The decoded path of a reference that ToString writes gives the URI back. */
  lemma FromPathBack(u: URI)
    requires Usable(u)
    ensures FromPath(u.scheme, u.path + (if u.dir then "/" else "")) == Some(u)
  {
    UsableSplit(u);
    CleanTrailing(u.path);
    var segs := Segs(u.path);
    assert u.path[|u.path| - 1] != '/' by {
      RootedSegs(u.path);
      LastOfJoin(segs);
    }
    if u.dir {
      assert ".." !in Split(u.path + "/", '/');
    } else {
      assert u.path + "" == u.path;
    }
  }

  lemma {:induction false} LastOfJoin(segs: seq<string>)
    requires segs != [] && ProperPath(segs)
    ensures Join(segs, '/') != "" && Join(segs, '/')[|Join(segs, '/')| - 1] != '/'
  {
    if |segs| > 1 {
      LastOfJoin(segs[1..]);
    } else {
      assert '/' !in segs[0];
    }
  }

  /** Nothing in the path means anything to the reference syntax. */
  ghost predicate Literal(path: string) {
    '%' !in path && '?' !in path && '#' !in path && !HasControl(path)
  }

  /** One of the two schemes, in whatever letters. */
  predicate Supported(scheme: string) { Lower(scheme) == FUSE || Lower(scheme) == FILE }

  lemma SchemeLetters(scheme: string)
    requires Supported(scheme)
    ensures |scheme| == 4 && forall i | 0 <= i < 4 :: Letter(scheme[i])
  {
    forall i | 0 <= i < 4 ensures Letter(scheme[i]) {
      assert Lower(scheme)[i] == FUSE[i] || Lower(scheme)[i] == FILE[i];
    }
  }

  lemma SchemeOf(scheme: string, body: string)
    requires Supported(scheme) && scheme + ":" <= body
    ensures SchemeEnd(body, 0) == Some(4) && body[..4] == scheme
  {
    SchemeLetters(scheme);
    assert body[..5] == scheme + ":";
    assert forall i | 0 <= i < 4 :: body[i] == body[..5][i] == scheme[i];
    assert body[4] == body[..5][4] == ':';
    LettersThenColon(body, 0, 4);
    assert body[..4] == scheme;
  }

  lemma LowerFour(s: string)
    requires s == FUSE || s == FILE
    ensures Lower(s) == s && Supported(s)
  {
  }

  lemma BeforeIs(s: string, c: char, b: string)
    requires b < s && c !in b && s[|b|] == c
    ensures Before(s, c) == b && After(s, c) == s[|b| + 1..]
  {
    var r := IndexOf(s, c, 0);
    assert forall j | 0 <= j < |b| :: s[j] == b[j];
    assert r == |b|;
  }

  lemma BeforeWhole(s: string, c: char)
    ensures Before(s, c) == s <==> c !in s
    ensures c in s ==> |Before(s, c)| < |s|
    ensures c !in s ==> After(s, c) == ""
  {
    var b := Before(s, c);
    if |b| == |s| { assert b == s; }
  }

  lemma BeforeConcat(head: string, tail: string, c: char)
    requires c !in head
    ensures Before(head + tail, c) == head + Before(tail, c)
    ensures After(head + tail, c) == After(tail, c)
  {
    var b, s := Before(tail, c), head + tail;
    BeforeWhole(tail, c);
    if |b| < |tail| {
      assert s[|head + b|] == tail[|b|] && head + b == s[..|head + b|];
      BeforeIs(s, c, head + b);
      assert s[|head + b| + 1..] == tail[|b| + 1..];
    } else {
      BeforeWhole(s, c);
    }
  }

  lemma BeforeHas(s: string, t: string, c: char)
    requires c in s
    ensures Before(s + t, c) == Before(s, c) && After(s + t, c) == After(s, c) + t
  {
    var b := Before(s, c);
    BeforeWhole(s, c);
    assert (s + t)[|b|] == s[|b|] && (s + t)[..|b|] == s[..|b|] == b;
    BeforeIs(s + t, c, b);
    assert (s + t)[|b| + 1..] == s[|b| + 1..] + t;
  }

  /** What Parse looks at in a reference whose scheme is already known to be good: the
      fragment's escapes, the control characters, and the path up to any query. */
  lemma ParseWritten(scheme: string, tail: string)
    requires Supported(scheme) && Rooted(tail)
    ensures var core := Before(Before(tail, '#'), '?');
            Parse(scheme + "://" + tail) ==
            if !WellEscaped(After(tail, '#')) || HasControl(Before(tail, '#')) || !WellEscaped(core) then None
            else FromPath(Lower(scheme), Unescape(core))
  {
    ParseReference(scheme, tail);
    RootedCore(tail);
    BeforeConcat("//", Before(tail, '#'), '?');
    EmptyAuthority(Before(Before(tail, '#'), '?'));
  }

  /** The same before the authority is looked at. */
  lemma ParseReference(scheme: string, tail: string)
    requires Supported(scheme)
    ensures Parse(scheme + "://" + tail) ==
            if !WellEscaped(After(tail, '#')) || HasControl(Before(tail, '#')) then None
            else ParseRest(Lower(scheme), Before("//" + Before(tail, '#'), '?'))
  {
    var head := scheme + "://";
    SchemeHead(scheme);
    BeforeConcat(head, tail, '#');
    var front := Before(tail, '#');
    var body := head + front;
    assert body[..5] == head[..5] && body[5..] == "//" + front;
    SchemeOf(scheme, body);
    ControlConcat(head, front);
  }

  lemma SchemeHead(scheme: string)
    requires Supported(scheme)
    ensures var head := scheme + "://";
            |head| == 7 && head[..5] == scheme + ":" && head[5..] == "//" && '#' !in head && !HasControl(head)
  {
    SchemeLetters(scheme);
    var head := scheme + "://";
    forall i | 0 <= i < |head| ensures head[i] != '#' && !Control(head[i]) {
      if i < 4 { assert head[i] == scheme[i]; }
    }
  }

  lemma EmptyAuthority(core: string)
    requires Rooted(core)
    ensures PathPart("//" + core) == Some(core)
  {
    assert ("//" + core)[2..] == core && Before(core, '/') == "";
  }

  lemma RootedCore(tail: string)
    requires Rooted(tail)
    ensures Rooted(Before(tail, '#')) && Rooted(Before(Before(tail, '#'), '?'))
  {
  }

  lemma ControlConcat(head: string, tail: string)
    requires !HasControl(head)
    ensures HasControl(head + tail) <==> HasControl(tail)
  {
    if i :| 0 <= i < |tail| && Control(tail[i]) { assert (head + tail)[|head| + i] == tail[i]; }
    forall j | 0 <= j < |head| ensures !Control((head + tail)[j]) { assert (head + tail)[j] == head[j]; }
    if i :| 0 <= i < |head + tail| && Control((head + tail)[i]) {
      assert Control(tail[i - |head|]);
    }
  }

  lemma LiteralRoundTrip(u: URI)
    requires Usable(u) && Literal(u.path)
    ensures Parse(ToString(u)) == Some(u)
  {
    var tail := u.path + (if u.dir then "/" else "");
    assert ToString(u) == u.scheme + "://" + tail;
    LowerFour(u.scheme);
    ParseWritten(u.scheme, tail);
    LiteralTail(u.path, tail);
    BeforeWhole(tail, '#');
    BeforeWhole(tail, '?');
    PlainIsEscaped(tail);
    UnescapeShrinks(tail);
    FromPathBack(u);
  }

  /** Parsing what was written gives the URI back if and only if its path holds none of the
      characters the reference syntax gives a meaning to. */
  lemma RoundTripIff(u: URI)
    requires Usable(u)
    ensures Parse(ToString(u)) == Some(u) <==> Literal(u.path)
  {
    if Literal(u.path) {
      LiteralRoundTrip(u);
    } else {
      var tail := u.path + (if u.dir then "/" else "");
      assert ToString(u) == u.scheme + "://" + tail;
      ParseWritten(u.scheme, tail);
      NotLiteral(u.path, tail);
      RootedCore(tail);
      var core := Before(Before(tail, '#'), '?');
      if WellEscaped(core) && FromPath(u.scheme, Unescape(core)).Some? {
        UnescapeShrinks(core);
        FromPathShrinks(u.scheme, core);
      }
    }
  }

  lemma LiteralTail(path: string, tail: string)
    requires Literal(path) && (tail == path || tail == path + "/")
    ensures '%' !in tail && '?' !in tail && '#' !in tail && !HasControl(tail)
  {
    forall i | 0 <= i < |tail| ensures !Control(tail[i]) && tail[i] != '%' && tail[i] != '?' && tail[i] != '#' {
      if i < |path| { assert tail[i] == path[i]; }
    }
  }

  /** Either a control character is met, or something is cut off, or an escape shrinks. */
  lemma NotLiteral(path: string, tail: string)
    requires !Literal(path) && path <= tail && |tail| <= |path| + 1
    ensures var front := Before(tail, '#');
            var core := Before(front, '?');
            HasControl(front) || |core| < |path| || ('%' in core)
  {
    var front := Before(tail, '#');
    var core := Before(front, '?');
    if |core| >= |path| {
      forall i | 0 <= i < |path| ensures path[i] == core[i] == front[i] && path[i] != '?' && path[i] != '#' {
        assert core[i] in core && front[i] in front;
      }
      if i :| 0 <= i < |path| && Control(path[i]) { assert Control(front[i]); }
    }
  }

  /** The path of a parsed reference is no longer than what it was decoded from. */
  lemma FromPathShrinks(scheme: string, core: string)
    requires Rooted(core) && WellEscaped(core) && FromPath(scheme, Unescape(core)).Some?
    ensures |FromPath(scheme, Unescape(core)).value.path| <= |Unescape(core)|
  {
    assert Rooted(Unescape(core));
    CleanShrinks(Unescape(core));
  }

  // ----- every location can be written -----

  /** A hexadecimal digit, in small or capital letters. */
  function HexOf(n: nat, capital: bool): char
    requires n < 16
  {
    if n < 10 then (('0' as int) + n) as char else ((if capital then 'A' as int else 'a' as int) + n - 10) as char
  }

  /** The characters that have to be escaped in a path. */
  predicate Special(c: char) { c == '%' || c == '?' || c == '#' || Control(c) }

  function EscapeOf(c: char, capital: bool): string {
    if Special(c) then ['%', HexOf((c as int) / 16, capital), HexOf((c as int) % 16, capital)] else [c]
  }

  function Escaped(s: string, capital: bool): string {
    if s == "" then "" else EscapeOf(s[0], capital) + Escaped(s[1..], capital)
  }

  lemma EscapeReads(c: char, capital: bool)
    ensures WellEscaped(EscapeOf(c, capital)) && Unescape(EscapeOf(c, capital)) == [c]
    ensures forall i | 0 <= i < |EscapeOf(c, capital)| :: !Control(EscapeOf(c, capital)[i])
    ensures '?' !in EscapeOf(c, capital) && '#' !in EscapeOf(c, capital)
  {
    var e := EscapeOf(c, capital);
    if Special(c) {
      HexReads((c as int) / 16, capital);
      HexReads((c as int) % 16, capital);
      assert Code(e[1], e[2]) == c;
      assert EscapedFrom(e, 3) && DecodeFrom(e, 3) == "";
      assert EscapedFrom(e, 0) && DecodeFrom(e, 0) == [c] + DecodeFrom(e, 3);
    } else {
      assert EscapedFrom(e, 1) && DecodeFrom(e, 1) == "" && EscapedFrom(e, 0);
    }
  }

  lemma HexReads(n: nat, capital: bool)
    requires n < 16
    ensures Hex(HexOf(n, capital)) && HexValue(HexOf(n, capital)) == n
    ensures !Control(HexOf(n, capital)) && HexOf(n, capital) != '?' && HexOf(n, capital) != '#'
  {
  }

  /** Reading on behind a prefix is reading what follows it. */
  lemma {:induction false} DecodeBehind(a: string, t: string, i: nat)
    requires i <= |t|
    ensures EscapedFrom(a + t, |a| + i) <==> EscapedFrom(t, i)
    ensures EscapedFrom(t, i) ==> DecodeFrom(a + t, |a| + i) == DecodeFrom(t, i)
    decreases |t| - i
  {
    if i < |t| {
      if t[i] != '%' { DecodeBehind(a, t, i + 1); } else if i + 2 < |t| { DecodeBehind(a, t, i + 3); }
    }
  }

  /** One escape in front of what reads. */
  lemma EscapeBefore(c: char, t: string, capital: bool)
    requires WellEscaped(t)
    ensures WellEscaped(EscapeOf(c, capital) + t) && Unescape(EscapeOf(c, capital) + t) == [c] + Unescape(t)
  {
    var e := EscapeOf(c, capital);
    var w := e + t;
    EscapeReads(c, capital);
    DecodeBehind(e, t, 0);
    assert w[0] == e[0] && (Special(c) ==> w[1] == e[1] && w[2] == e[2]);
    assert EscapedFrom(w, |e|) && DecodeFrom(w, |e|) == Unescape(t);
    if Special(c) {
      HexReads((c as int) / 16, capital);
      HexReads((c as int) % 16, capital);
      assert EscapedFrom(w, 0) && DecodeFrom(w, 0) == [Code(w[1], w[2])] + DecodeFrom(w, 3);
    } else {
      assert EscapedFrom(w, 0) && DecodeFrom(w, 0) == [c] + DecodeFrom(w, 1);
    }
  }

  lemma {:induction false} EscapedReads(s: string, capital: bool)
    ensures WellEscaped(Escaped(s, capital)) && Unescape(Escaped(s, capital)) == s
    ensures '?' !in Escaped(s, capital) && '#' !in Escaped(s, capital) && !HasControl(Escaped(s, capital))
  {
    if s != "" {
      EscapedReads(s[1..], capital);
      EscapeReads(s[0], capital);
      EscapeBefore(s[0], Escaped(s[1..], capital), capital);
      assert !HasControl(EscapeOf(s[0], capital));
      ControlConcat(EscapeOf(s[0], capital), Escaped(s[1..], capital));
    }
  }

  /** Every usable location, whatever characters its path holds, is what some reference reads
      as: the one with those characters escaped, its scheme in whatever letters. */
  lemma ParseEscaped(u: URI, scheme: string, capital: bool)
    requires Usable(u) && Lower(scheme) == u.scheme
    ensures Parse(scheme + "://" + Escaped(u.path + (if u.dir then "/" else ""), capital)) == Some(u)
  {
    var path := u.path + (if u.dir then "/" else "");
    var tail := Escaped(path, capital);
    EscapedReads(path, capital);
    assert tail[0] == '/' by { assert Escaped(path, capital) == EscapeOf('/', capital) + Escaped(path[1..], capital); }
    ParseWritten(scheme, tail);
    BeforeWhole(tail, '#');
    BeforeWhole(tail, '?');
    FromPathBack(u);
  }

  /** A reference with a host is refused, whatever follows it. */
  lemma HostRefused(scheme: string, host: string, rest: string)
    requires Supported(scheme) && host != "" && '/' !in host && '?' !in host && '#' !in host
    requires host[|host| - 1] != '@'
    ensures Parse(scheme + "://" + host + "/" + rest).None?
  {
    var tail := host + "/" + rest;
    assert scheme + "://" + host + "/" + rest == scheme + "://" + tail;
    ParseReference(scheme, tail);
    HostPart(host, rest);
  }

  lemma HostPart(host: string, rest: string)
    requires host != "" && '/' !in host && '?' !in host && '#' !in host && host[|host| - 1] != '@'
    ensures PathPart(Before("//" + Before(host + "/" + rest, '#'), '?')).None?
  {
    var front := host + "/";
    BeforeConcat(front, rest, '#');
    var cut := Before(rest, '#');
    assert "//" + (front + cut) == ("//" + front) + cut;
    BeforeConcat("//" + front, cut, '?');
    HostFound(host, Before(cut, '?'));
  }

  lemma HostFound(host: string, rest: string)
    requires host != "" && '/' !in host && host[|host| - 1] != '@'
    ensures PathPart("//" + (host + "/") + rest).None?
  {
    var core := "//" + (host + "/") + rest;
    assert core[2..] == (host + "/") + rest;
    BeforeIs(core[2..], '/', host);
  }

  // ----- inside an artifact -----

  /** Join: the URI of a file below a directory prefix. */
  function JoinURI(u: URI, rel: string): Option<URI> {
    if !u.dir || ".." in Split(rel, '/') then None
    else
      var clean := Clean("/" + rel);
      if clean == "/" then None else Some(URI(u.scheme, u.path + clean, false))
  }

  function HostPath(u: URI, fuseMount: string): string {
    if u.scheme == FILE then u.path else PathJoin(fuseMount, u.path)
  }

  function CommitPath(u: URI): URI {
    if !u.dir then u else URI(u.scheme, u.path + "/" + MANIFEST_NAME, false)
  }

  lemma CleanRooted(rel: string)
    requires ValidRelPath(rel) && rel != "."
    ensures Clean("/" + rel) == "/" + rel && ".." !in Split(rel, '/')
  {
    ValidRelPathIff(rel);
    SplitRooted(rel);
    var parts := Split(rel, '/');
    assert ([""] + parts)[1..] == parts;
    NormProper(parts, true, []);
    assert [] + parts == parts;
    JoinSplit(rel, '/');
  }

  /** For every name a manifest may list, Join succeeds and lands strictly below the prefix,
      at the prefix's segments followed by the name's. */
  lemma JoinLands(u: URI, rel: string)
    requires Usable(u) && u.dir && ValidRelPath(rel) && rel != "."
    ensures JoinURI(u, rel) == Some(URI(u.scheme, u.path + "/" + rel, false))
    ensures Usable(JoinURI(u, rel).value)
    ensures Segs(u.path + "/" + rel) == At(Segs(u.path), rel) && Segs(u.path) < Segs(u.path + "/" + rel)
  {
    CleanRooted(rel);
    assert u.path + ("/" + rel) == u.path + "/" + rel;
    CleanAppend(u.path, rel);
    RootedSegs(u.path + "/" + rel);
  }

  /** What is left of any name when it is cleaned below a prefix is a name. */
  lemma NameLeft(rel: string)
    requires Segs("/" + rel) != []
    ensures var name := Join(Segs("/" + rel), '/');
            && Clean("/" + rel) == "/" + name && "/" + name != "/"
            && ValidRelPath(name) && name != "." && Split(name, '/') == Segs("/" + rel)
  {
    var segs := Segs("/" + rel);
    RootedSegs("/" + rel);
    LastOfJoin(segs);
    SplitJoin(segs, '/');
    ValidRelPathIff(Join(segs, '/'));
    if Join(segs, '/') == "." {
      SplitPlain(".", '/');
      assert false;
    }
  }

  /** For any name at all: Join refuses traversal and what names nothing, and lands strictly
      below the prefix otherwise, at the segments of the name. */
  lemma JoinIff(u: URI, rel: string)
    requires Usable(u)
    ensures JoinURI(u, rel).Some? <==> u.dir && ".." !in Split(rel, '/') && Segs("/" + rel) != []
    ensures JoinURI(u, rel).Some? ==>
              var v := JoinURI(u, rel).value;
              v.scheme == u.scheme && !v.dir && Segs(v.path) == Segs(u.path) + Segs("/" + rel)
  {
    if Segs("/" + rel) == [] { RootedSegs("/" + rel); } else { JoinText(u, rel); }
  }

  lemma JoinText(u: URI, rel: string)
    requires Usable(u) && Segs("/" + rel) != []
    ensures Clean("/" + rel) != "/" && Segs(u.path + Clean("/" + rel)) == Segs(u.path) + Segs("/" + rel)
  {
    NameLeft(rel);
    var name := Join(Segs("/" + rel), '/');
    CleanAppend(u.path, name);
    Regroup(u.path, "/", name);
  }

  lemma JoinInjective(u: URI, a: string, b: string)
    requires Usable(u) && u.dir && ValidRelPath(a) && a != "." && ValidRelPath(b) && b != "."
    requires JoinURI(u, a) == JoinURI(u, b)
    ensures a == b
  {
    JoinLands(u, a);
    JoinLands(u, b);
    AtInjective(Segs(u.path), a, b);
  }

  /** A mount point joined with a usable path, as text and as segments. */
  lemma MountedPath(mount: string, path: string, rel: string)
    requires Rooted(path) && Clean(path) == path && ValidRelPath(rel) && rel != "."
    ensures PathJoin(mount, path + "/" + rel) == PathJoin(PathJoin(mount, path), rel)
    ensures Segs(PathJoin(mount, path + "/" + rel)) == At(Segs(PathJoin(mount, path)), rel)
  {
    var whole := if mount == "" then path else mount + "/" + path;
    assert path + "/" + rel != "" && path != "" && rel != "";
    assert mount != "" ==> mount + "/" + (path + "/" + rel) == whole + "/" + rel;
    assert PathJoin(mount, path) == Clean(whole) && PathJoin(mount, path + "/" + rel) == Clean(whole + "/" + rel);
    CleanPrefix(whole, rel);
    CleanKeepsSegs(whole);
    CleanKeepsSegs(whole + "/" + rel);
    CleanNotEmpty(whole);
    ValidRelPathIff(rel);
    NormProper(Split(rel, '/'), Rooted(whole), Segs(whole));
  }

  lemma CleanNotEmpty(p: string)
    ensures Clean(p) != ""
  {
    SegsNormal(p);
    NormalHead(Segs(p), Rooted(p));
    JoinNotRooted(Segs(p));
  }

  /** A node-local location is its own path; any other lies below the mount, at its segments. */
  lemma HostPathMeans(u: URI, fuseMount: string)
    requires Usable(u)
    ensures u.scheme == "file" ==> HostPath(u, fuseMount) == u.path
    ensures u.scheme == "fuse" && Rooted(fuseMount) ==>
              Rooted(HostPath(u, fuseMount)) && Segs(HostPath(u, fuseMount)) == Segs(fuseMount) + Segs(u.path)
  {
    if u.scheme == FUSE && Rooted(fuseMount) {
      CleanKeepsSegs(fuseMount + "/" + u.path);
      CleanPrefix(fuseMount, u.path);
      UsableSplit(u);
      assert ([""] + Segs(u.path))[1..] == Segs(u.path);
      NormProper(Segs(u.path), true, Segs(fuseMount));
    }
  }

  /** The file that Store.Delete removes for a listed name is the file that the expander
      wrote for it: joining the URI and joining the path agree, on either scheme. */
  lemma HostPathOfJoin(u: URI, rel: string, fuseMount: string)
    requires Usable(u) && u.dir && ValidRelPath(rel) && rel != "."
    ensures JoinURI(u, rel).Some?
    ensures HostPath(JoinURI(u, rel).value, fuseMount) == PathJoin(HostPath(u, fuseMount), rel)
    ensures Segs(HostPath(JoinURI(u, rel).value, fuseMount)) == At(Segs(HostPath(u, fuseMount)), rel)
  {
    JoinLands(u, rel);
    MountedPath(fuseMount, u.path, rel);
    CleanAppend(u.path, rel);
    assert PathJoin(u.path, rel) == Clean(u.path + "/" + rel);
  }

  /** The commit object of a directory artifact is its MANIFEST; of a tar, the tar. */
  lemma CommitPathIsMarker(u: URI, fuseMount: string)
    requires Usable(u)
    ensures !u.dir ==> CommitPath(u) == u
    ensures u.dir ==> Some(CommitPath(u)) == JoinURI(u, MANIFEST_NAME)
    ensures u.dir ==> Segs(HostPath(CommitPath(u), fuseMount)) == ManifestPath(Segs(HostPath(u, fuseMount)))
  {
    if u.dir {
      MarkerNames(Segs(HostPath(u, fuseMount)));
      JoinLands(u, MANIFEST_NAME);
      HostPathOfJoin(u, MANIFEST_NAME, fuseMount);
    }
  }

  // ----- roots and default locations -----

  const DEFAULT_ROOT := "fuse:///snapshots"
  const PROBE := "probe"

  function TrimRight(s: string, c: char): (r: string)
    ensures r <= s && (r == "" || r[|r| - 1] != c)
    ensures s != "" && s[|s| - 1] != c ==> r == s
  {
    if s != "" && s[|s| - 1] == c then TrimRight(s[..|s| - 1], c) else s
  }

  /** ParseRoot: a root is accepted when a path joined to it parses. */
  function ParseRoot(root: string): Option<string> {
    var r := TrimRight(if root == "" then DEFAULT_ROOT else root, '/');
    if Parse(r + "/" + PROBE).Some? then Some(r) else None
  }

  function RootOrDefault(root: string): string {
    if root == "" then DEFAULT_ROOT else TrimRight(root, '/')
  }

  function DefaultURI(root: string, namespace: string, name: string, container: string, dir: bool): string {
    RootOrDefault(root) + "/" + namespace + "/" + name + "/" + container + (if dir then "/" else ".tar")
  }

  /** A segment that is only a name, to cleaning and to the reference syntax. */
  ghost predicate PlainSegment(s: string) {
    Proper(s) && Literal(s)
  }

  /** w starts with a, and what follows cannot complete an escape of a. */
  ghost predicate Extends(a: string, w: string) {
    && |a| <= |w| && (forall j | 0 <= j < |a| :: w[j] == a[j])
    && (|w| > |a| ==> !Hex(w[|a|])) && EscapedFrom(w, |a|)
  }

  lemma {:induction false} EscapedExtend(a: string, w: string, i: nat)
    requires Extends(a, w) && i <= |a|
    ensures EscapedFrom(w, i) <==> EscapedFrom(a, i)
    decreases |a| - i
  {
    if i < |a| && a[i] != '%' {
      EscapedExtend(a, w, i + 1);
    } else if i + 2 < |a| {
      EscapedExtend(a, w, i + 3);
    }
  }

  lemma Regroup(a: string, b: string, c: string)
    ensures a + (b + c) == (a + b) + c
  {
  }

  lemma {:induction false} DecodeExtend(a: string, w: string, i: nat)
    requires Extends(a, w) && i <= |a| && EscapedFrom(a, i) && EscapedFrom(w, i)
    ensures DecodeFrom(w, i) == DecodeFrom(a, i) + DecodeFrom(w, |a|)
    decreases |a| - i
  {
    if i < |a| {
      var next := if a[i] == '%' then i + 3 else i + 1;
      var x := if a[i] == '%' then Code(a[i + 1], a[i + 2]) else a[i];
      DecodeExtend(a, w, next);
      assert DecodeFrom(w, i) == [x] + DecodeFrom(w, next);
      assert DecodeFrom(a, i) == [x] + DecodeFrom(a, next);
      Regroup([x], DecodeFrom(a, next), DecodeFrom(w, |a|));
    }
  }

  /** What follows a slash cannot complete an escape before it. */
  lemma EscapedConcat(a: string, t: string)
    requires '%' !in t && (t == "" || !Hex(t[0]))
    ensures WellEscaped(a + t) <==> WellEscaped(a)
    ensures WellEscaped(a) ==> Unescape(a + t) == Unescape(a) + t
  {
    var w := a + t;
    DecodePlain(w, |a|);
    assert w[|a|..] == t;
    EscapedExtend(a, w, 0);
    if WellEscaped(a) { DecodeExtend(a, w, 0); }
  }

  /** A slash is no scheme character: what follows it does not matter to the scheme. */
  lemma {:induction false} SchemeExtend(r: string, t: string, i: nat)
    requires i <= |r| && t != "" && t[0] == '/'
    ensures SchemeEnd(r + t, i) == SchemeEnd(r, i)
    decreases |r| - i
  {
    if i < |r| { SchemeExtend(r, t, i + 1); }
  }

  /** The part of a root's path that everything is hung off. */
  function PathBase(rest: string): Option<string> {
    if rest == "" then Some("")
    else if !Rooted(rest) then None
    else if |rest| >= 2 && rest[1] == '/' then
      var authority := Before(rest[2..], '/');
      if NoHost(authority) then Some(rest[2..][|authority|..]) else None
    else Some(rest)
  }

  lemma AuthorityExtend(after: string, t: string)
    requires t != "" && t[0] == '/'
    ensures Before(after + t, '/') == Before(after, '/')
    ensures (after + t)[|Before(after, '/')|..] == after[|Before(after, '/')|..] + t
  {
    if '/' in after {
      BeforeHas(after, t, '/');
    } else {
      BeforeConcat(after, t, '/');
      BeforeWhole(after, '/');
      assert Before(t, '/') == "" && after + "" == after;
    }
  }

  lemma PathPartExtend(rest: string, t: string)
    requires rest == "" || rest[|rest| - 1] != '/'
    requires |t| >= 2 && t[0] == '/' && t[1] != '/'
    ensures PathPart(rest + t) == if PathBase(rest).Some? then Some(PathBase(rest).value + t) else None
  {
    var whole := rest + t;
    if rest == "" {
      assert whole == t;
    } else {
      assert whole[0] == rest[0];
      if Rooted(rest) {
        assert |rest| >= 2 && whole[1] == rest[1];
        if rest[1] == '/' {
          assert whole[2..] == rest[2..] + t;
          AuthorityExtend(rest[2..], t);
        }
      }
    }
  }

  lemma PathBaseRooted(rest: string)
    requires PathBase(rest).Some?
    ensures PathBase(rest).value == "" || Rooted(PathBase(rest).value)
  {
  }

  /** Parse of a root with something hung off it, where the root has neither a query nor a
      fragment: the scheme and the base of the path come from the root alone. */
  function RootParts(r: string): Option<(string, string)> {
    match SchemeEnd(r, 0)
    case None => None
    case Some(k) =>
      var scheme := Lower(r[..k]);
      if scheme != FUSE && scheme != FILE then None
      else match PathBase(r[k + 1..])
           case None => None
           case Some(p) => if WellEscaped(p) then Some((scheme, Unescape(p))) else None
  }

  ghost predicate Hung(t: string) {
    |t| >= 2 && t[0] == '/' && t[1] != '/' && Literal(t)
  }

  lemma ParseRestHung(scheme: string, rest: string, t: string)
    requires (rest == "" || rest[|rest| - 1] != '/') && Hung(t)
    ensures ParseRest(scheme, rest + t) ==
            if PathBase(rest).Some? && WellEscaped(PathBase(rest).value) then
              FromPath(scheme, Unescape(PathBase(rest).value) + t)
            else None
  {
    PathPartExtend(rest, t);
    if PathBase(rest).Some? { EscapedConcat(PathBase(rest).value, t); }
  }

  lemma ParseBodyHung(r: string, t: string)
    requires r != "" && r[|r| - 1] != '/' && '?' !in r && Hung(t)
    ensures ParseBody(r + t) ==
            if RootParts(r).Some? then FromPath(RootParts(r).value.0, RootParts(r).value.1 + t) else None
  {
    SchemeExtend(r, t, 0);
    if SchemeEnd(r, 0).Some? {
      var k := SchemeEnd(r, 0).value;
      var rest := r[k + 1..];
      assert (r + t)[k + 1..] == rest + t && (r + t)[..k] == r[..k];
      BeforeWhole(rest + t, '?');
      ParseRestHung(Lower(r[..k]), rest, t);
    }
  }

  lemma ParseHung(r: string, t: string)
    requires r != "" && r[|r| - 1] != '/' && '?' !in r && '#' !in r && Hung(t)
    ensures Parse(r + t) ==
            if !HasControl(r) && RootParts(r).Some? then
              FromPath(RootParts(r).value.0, RootParts(r).value.1 + t)
            else None
  {
    WholeBody(r, t);
    ParseBodyHung(r, t);
  }

  /** Without a hash the whole reference is its body. */
  lemma WholeBody(r: string, t: string)
    requires '#' !in r && '#' !in t && !HasControl(t)
    ensures Parse(r + t) == if HasControl(r) then None else ParseBody(r + t)
  {
    BeforeWhole(r + t, '#');
    ControlBoth(r, t);
    assert WellEscaped("");
  }

  lemma ControlBoth(a: string, b: string)
    requires !HasControl(b)
    ensures HasControl(a + b) <==> HasControl(a)
  {
    if i :| 0 <= i < |a| && Control(a[i]) { assert (a + b)[i] == a[i]; }
    forall j | |a| <= j < |a + b| ensures !Control((a + b)[j]) { assert (a + b)[j] == b[j - |a|]; }
    if i :| 0 <= i < |a + b| && Control((a + b)[i]) { assert Control(a[i]); }
  }

  /** With a query or a fragment in the root, what is hung off it is not looked at. */
  lemma ParseCutOff(r: string, t: string, t': string)
    requires '?' in r || '#' in r
    requires r[|r| - 1] != '/' && Hung(t) && Hung(t')
    ensures Parse(r + t) == Parse(r + t')
  {
    if '#' in r {
      BeforeHas(r, t, '#');
      BeforeHas(r, t', '#');
      EscapedConcat(After(r, '#'), t);
      EscapedConcat(After(r, '#'), t');
    } else {
      CutAtQuery(r, t);
      CutAtQuery(r, t');
    }
  }

  lemma CutAtQuery(r: string, t: string)
    requires '?' in r && '#' !in r && Hung(t)
    ensures Parse(r + t) == if HasControl(r) then None else ParseBody(r)
  {
    WholeBody(r, t);
    SchemeExtend(r, t, 0);
    if SchemeEnd(r, 0).Some? {
      var k := SchemeEnd(r, 0).value;
      NoQueryInScheme(r, 0, k);
      assert (r + t)[k + 1..] == r[k + 1..] + t && (r + t)[..k] == r[..k];
      var i :| 0 <= i < |r| && r[i] == '?';
      assert r[k + 1..][i - k - 1] == '?';
      BeforeHas(r[k + 1..], t, '?');
    }
  }

  lemma {:induction false} NoQueryInScheme(s: string, i: nat, k: nat)
    requires i <= |s| && SchemeEnd(s, i) == Some(k)
    ensures forall j | i <= j <= k :: s[j] != '?'
    decreases |s| - i
  {
    if s[i] != ':' { NoQueryInScheme(s, i + 1, k); }
  }

  /** What DefaultURI hangs off a root: three plain segments, the last one with ".tar" or
      followed by a slash. */
  function Leaf(container: string, dir: bool): string { if dir then container else container + ".tar" }

  function Names(namespace: string, name: string, container: string, dir: bool): seq<string> {
    [namespace, name, Leaf(container, dir)]
  }

  function Hanging(segs: seq<string>, dir: bool): string { "/" + Join(segs, '/') + (if dir then "/" else "") }

  lemma ControlJoin(a: string, b: string)
    requires Literal(a) && Literal(b)
    ensures Literal(a + b)
  {
    ControlBoth(a, b);
  }

  lemma {:induction false} LiteralJoin(segs: seq<string>)
    requires forall i | 0 <= i < |segs| :: Literal(segs[i])
    ensures Literal(Join(segs, '/'))
  {
    if |segs| > 1 {
      LiteralJoin(segs[1..]);
      ControlJoin(segs[0] + ['/'], Join(segs[1..], '/'));
    }
  }

  lemma HungNames(segs: seq<string>, dir: bool)
    requires segs != [] && forall i | 0 <= i < |segs| :: PlainSegment(segs[i])
    ensures Hung(Hanging(segs, dir))
  {
    LiteralJoin(segs);
    var joined := Join(segs, '/');
    assert Literal(segs[0]) && Proper(segs[0]);
    assert joined[0] == segs[0][0];
    ControlJoin("/", joined);
    ControlJoin("/" + joined, if dir then "/" else "");
  }

  function Plainly(d: string, segs: seq<string>): string { d + "/" + Join(segs, '/') }

  lemma HungSplit(d: string, segs: seq<string>, dir: bool)
    requires segs != [] && ProperPath(segs)
    ensures d + Hanging(segs, dir) == Plainly(d, segs) + (if dir then "/" else "")
    ensures ".." in Split(d + Hanging(segs, dir), '/') <==> ".." in Split(d, '/')
  {
    var plain, path := Plainly(d, segs), d + Hanging(segs, dir);
    PlainlySplit(d, segs);
    if dir {
      assert path == plain + ['/'] + "";
      SplitConcat(plain, "", '/');
      NoDots(Split(d, '/'), segs, [""]);
    } else {
      assert path == plain;
      NoDots(Split(d, '/'), segs, []);
    }
  }

  lemma PlainlySplit(d: string, segs: seq<string>)
    requires segs != [] && ProperPath(segs)
    ensures Split(Plainly(d, segs), '/') == Split(d, '/') + segs
  {
    var joined := Join(segs, '/');
    assert Plainly(d, segs) == d + ['/'] + joined;
    SplitJoin(segs, '/');
    SplitConcat(d, joined, '/');
  }

  lemma NoDots(a: seq<string>, b: seq<string>, c: seq<string>)
    requires ProperPath(b) && ".." !in c
    ensures ".." in a + b + c <==> ".." in a
    ensures ".." in a + b <==> ".." in a
  {
    assert ".." !in b;
  }

  /** The cleaned path of what is hung off a base. */
  lemma HungClean(d: string, segs: seq<string>)
    requires (d == "" || Rooted(d)) && segs != [] && ProperPath(segs)
    ensures var plain := Plainly(d, segs);
            && Rooted(plain) && plain[|plain| - 1] != '/'
            && Rooted(Clean(plain)) && Clean(plain) != "/" && Clean(plain) != "."
            && Segs(Clean(plain)) == BaseSegs(d) + segs
  {
    var plain := Plainly(d, segs);
    HungSegs(d, segs);
    RootedSegs(plain);
    CleanKeepsSegs(plain);
    LastOfJoin(segs);
    assert plain[|plain| - 1] == Join(segs, '/')[|Join(segs, '/')| - 1];
    var n := BaseSegs(d) + segs;
    assert ProperPath(n);
    LastOfJoin(n);
  }

  /** Decoding and cleaning what is hung off a base gives the base's segments and then the
      names, and the trailing slash decides the format. */
  lemma FromPathHung(scheme: string, d: string, segs: seq<string>, dir: bool)
    requires (d == "" || Rooted(d)) && segs != [] && ProperPath(segs)
    ensures FromPath(scheme, d + Hanging(segs, dir)) ==
            if ".." in Split(d, '/') then None else Some(URI(scheme, Clean(Plainly(d, segs)), dir))
  {
    var plain := Plainly(d, segs);
    HungSplit(d, segs, dir);
    HungClean(d, segs);
    if dir {
      CleanTrailing(plain);
      FromPathIs(scheme, plain + "/", Clean(plain), true);
    } else {
      assert plain + "" == plain;
      FromPathIs(scheme, plain, Clean(plain), false);
    }
  }

  lemma FromPathIs(scheme: string, path: string, p: string, dir: bool)
    requires path != "" && Clean(path) == p && Rooted(p) && p != "/" && p != "."
    requires path[|path| - 1] == '/' <==> dir
    ensures FromPath(scheme, path) == if ".." in Split(path, '/') then None else Some(URI(scheme, p, dir))
  {
  }

  function BaseSegs(d: string): seq<string> { if d == "" then [] else Segs(d) }

  lemma RootedJoin(segs: seq<string>)
    requires segs != [] && ProperPath(segs)
    ensures Segs("/" + Join(segs, '/')) == segs
  {
    SplitJoin(segs, '/');
    SplitRooted(Join(segs, '/'));
    assert ([""] + segs)[1..] == segs;
    NormProper(segs, true, []);
    assert [] + segs == segs;
  }

  lemma HungSegs(d: string, segs: seq<string>)
    requires (d == "" || Rooted(d)) && segs != [] && ProperPath(segs)
    ensures Rooted(Plainly(d, segs)) && Segs(Plainly(d, segs)) == BaseSegs(d) + segs
  {
    var joined := Join(segs, '/');
    if d == "" {
      assert d + "/" + joined == "/" + joined;
      RootedJoin(segs);
    } else {
      SplitJoin(segs, '/');
      CleanPrefix(d, joined);
      NormProper(segs, true, Segs(d));
    }
  }

  /** Where a root leads: the segments of its path. */
  function RootSegs(r: string): seq<string>
    requires RootParts(r).Some?
  {
    BaseSegs(RootParts(r).value.1)
  }

  lemma RootedBase(r: string)
    requires RootParts(r).Some?
    ensures RootParts(r).value.1 == "" || Rooted(RootParts(r).value.1)
  {
    var k := SchemeEnd(r, 0).value;
    PathBaseRooted(r[k + 1..]);
  }

  lemma ThreeJoined(r: string, a: string, b: string, c: string, tail: string)
    ensures r + "/" + a + "/" + b + "/" + (c + tail) == r + ("/" + Join([a, b, c], '/') + tail)
  {
    assert [a, b, c][1..] == [b, c] && [b, c][1..] == [c];
    assert Join([b, c], '/') == b + ['/'] + c;
    assert Join([a, b, c], '/') == a + ['/'] + (b + ['/'] + c);
  }

  lemma RootNotEmpty(root: string, r: string)
    requires ParseRoot(root) == Some(r)
    ensures r != ""
  {
    NoSchemeNoURI("" + "/" + PROBE);
  }

  lemma RootTrimmed(root: string, r: string)
    requires ParseRoot(root) == Some(r)
    ensures r == TrimRight(if root == "" then DEFAULT_ROOT else root, '/')
  {
  }

  /** An accepted root is its own default. */
  lemma TrimmedRoot(s: string, r: string)
    requires r != "" && r == TrimRight(s, '/')
    ensures r[|r| - 1] != '/' && RootOrDefault(r) == r
  {
    TrimmedEnds(s, '/');
  }

  lemma AcceptedRoot(root: string, r: string)
    requires ParseRoot(root) == Some(r)
    ensures r != "" && r[|r| - 1] != '/' && RootOrDefault(r) == r
  {
    RootNotEmpty(root, r);
    RootTrimmed(root, r);
    TrimmedRoot(if root == "" then DEFAULT_ROOT else root, r);
  }

  lemma TrimmedEnds(s: string, c: char)
    ensures var r := TrimRight(s, c); r == "" || (r[|r| - 1] != c && TrimRight(r, c) == r)
  {
  }

  /** A text that starts with a slash has no scheme. */
  lemma NoSchemeNoURI(s: string)
    requires s != "" && s[0] == '/'
    ensures Parse(s).None?
  {
  }

  lemma DefaultHangs(root: string, r: string, namespace: string, name: string, container: string, dir: bool)
    requires ParseRoot(root) == Some(r)
    ensures r != "" && r[|r| - 1] != '/'
    ensures DefaultURI(r, namespace, name, container, dir) == r + Hanging(Names(namespace, name, container, dir), dir)
  {
    AcceptedRoot(root, r);
    var tail := if dir then "/" else "";
    ThreeJoined(r, namespace, name, Leaf(container, dir), tail);
    assert Leaf(container, dir) + tail == container + (if dir then "/" else ".tar");
    assert r + "/" + namespace + "/" + name + "/" + container + (if dir then "/" else ".tar")
        == r + "/" + namespace + "/" + name + "/" + (container + (if dir then "/" else ".tar"));
  }

  lemma PlainLeaf(container: string, dir: bool)
    requires PlainSegment(container)
    ensures PlainSegment(Leaf(container, dir))
  {
    ControlJoin(container, ".tar");
  }

  lemma ProbeHangs(r: string)
    ensures r + "/" + PROBE == r + Hanging([PROBE], false) && PlainSegment(PROBE)
  {
    assert "/" + PROBE + "" == "/" + PROBE;
  }

  /** Under an accepted root and plain segments, the default location parses back with the
      requested format, whichever it is, if and only if the root has neither a query nor a
      fragment. */
  lemma DefaultURIParsesIff(root: string, r: string, namespace: string, name: string, container: string)
    requires ParseRoot(root) == Some(r)
    requires PlainSegment(namespace) && PlainSegment(name) && PlainSegment(container)
    ensures '?' !in r && '#' !in r
       <==> ParsesAs(Parse(DefaultURI(r, namespace, name, container, true)), true)
            && ParsesAs(Parse(DefaultURI(r, namespace, name, container, false)), false)
  {
    if '?' !in r && '#' !in r {
      DefaultParses(root, r, namespace, name, container, true);
      DefaultParses(root, r, namespace, name, container, false);
    } else {
      DefaultCutOff(root, r, namespace, name, container);
    }
  }

  lemma DefaultCutOff(root: string, r: string, namespace: string, name: string, container: string)
    requires ParseRoot(root) == Some(r) && ('?' in r || '#' in r)
    requires PlainSegment(namespace) && PlainSegment(name) && PlainSegment(container)
    ensures Parse(DefaultURI(r, namespace, name, container, true)) ==
            Parse(DefaultURI(r, namespace, name, container, false))
  {
    DefaultHangs(root, r, namespace, name, container, true);
    DefaultHangs(root, r, namespace, name, container, false);
    NamesProper(namespace, name, container, true);
    NamesProper(namespace, name, container, false);
    ParseCutOff(r, Hanging(Names(namespace, name, container, true), true),
                Hanging(Names(namespace, name, container, false), false));
  }

  predicate ParsesAs(u: Option<URI>, dir: bool) { u.Some? && u.value.dir == dir }

  predicate LiesAt(u: Option<URI>, segs: seq<string>) { u.Some? && Segs(u.value.path) == segs }

  /** What an accepted root without query and fragment is made of. */
  lemma RootAccepted(root: string, r: string)
    requires ParseRoot(root) == Some(r) && '?' !in r && '#' !in r
    ensures !HasControl(r) && RootParts(r).Some? && ".." !in Split(RootParts(r).value.1, '/')
    ensures RootParts(r).value.1 == "" || Rooted(RootParts(r).value.1)
  {
    AcceptedRoot(root, r);
    ProbeHangs(r);
    HungNames([PROBE], false);
    ParseHung(r, Hanging([PROBE], false));
    RootedBase(r);
    FromPathHung(RootParts(r).value.0, RootParts(r).value.1, [PROBE], false);
  }

  /** Then it lies at the root's segments followed by the names. */
  lemma DefaultParses(root: string, r: string, namespace: string, name: string, container: string, dir: bool)
    requires ParseRoot(root) == Some(r) && '?' !in r && '#' !in r
    requires PlainSegment(namespace) && PlainSegment(name) && PlainSegment(container)
    ensures RootParts(r).Some?
    ensures ParsesAs(Parse(DefaultURI(r, namespace, name, container, dir)), dir)
    ensures LiesAt(Parse(DefaultURI(r, namespace, name, container, dir)),
                   RootSegs(r) + Names(namespace, name, container, dir))
  {
    var names := Names(namespace, name, container, dir);
    RootAccepted(root, r);
    AcceptedRoot(root, r);
    NamesProper(namespace, name, container, dir);
    HungParses(r, names, dir);
    DefaultHangs(root, r, namespace, name, container, dir);
  }

  lemma NamesProper(namespace: string, name: string, container: string, dir: bool)
    requires PlainSegment(namespace) && PlainSegment(name) && PlainSegment(container)
    ensures ProperPath(Names(namespace, name, container, dir))
            && Hung(Hanging(Names(namespace, name, container, dir), dir))
  {
    PlainLeaf(container, dir);
    HungNames(Names(namespace, name, container, dir), dir);
  }

  lemma HungParses(r: string, names: seq<string>, dir: bool)
    requires r != "" && r[|r| - 1] != '/' && '?' !in r && '#' !in r && !HasControl(r)
    requires names != [] && ProperPath(names) && Hung(Hanging(names, dir))
    requires RootParts(r).Some? && ".." !in Split(RootParts(r).value.1, '/')
    requires RootParts(r).value.1 == "" || Rooted(RootParts(r).value.1)
    ensures ParsesAs(Parse(r + Hanging(names, dir)), dir) && LiesAt(Parse(r + Hanging(names, dir)), RootSegs(r) + names)
  {
    ParseHung(r, Hanging(names, dir));
    FromPathHung(RootParts(r).value.0, RootParts(r).value.1, names, dir);
    HungClean(RootParts(r).value.1, names);
  }

  // ----- confinement -----

  /** CheckLocalRoot: a node-local artifact lies at or below the configured root. */
  predicate CheckLocalRoot(u: URI, root: string) {
    if u.scheme != FILE || root == "" then true
    else
      var r := TrimRight(Clean(root), '/');
      u.path == r || (r + "/") <= u.path
  }

  /** The textual test is the one on segments: the root's segments are a prefix of the
      artifact's, so no artifact beside the root passes and none below it is refused. */
  lemma CheckLocalRootIff(u: URI, root: string)
    requires Usable(u) && Rooted(root)
    ensures CheckLocalRoot(u, root) <==> u.scheme == FUSE || Segs(root) <= Segs(u.path)
  {
    if u.scheme == FILE {
      var n, segs := Segs(root), Segs(u.path);
      RootedSegs(root);
      RootedSegs(u.path);
      assert u.path == "/" + Join(segs, '/');
      if n == [] {
        assert Clean(root) == "/" && TrimRight("/", '/') == "";
      } else {
        LastOfJoin(n);
        assert TrimRight(Clean(root), '/') == Clean(root);
        PrefixBySegments(n, segs);
      }
    }
  }

  lemma PrefixBySegments(n: seq<string>, segs: seq<string>)
    requires n != [] && segs != [] && ProperPath(n) && ProperPath(segs)
    ensures var r, p := "/" + Join(n, '/'), "/" + Join(segs, '/');
            (p == r || (r + "/") <= p) <==> n <= segs
  {
    TextPrefix(Join(n, '/'), Join(segs, '/'));
    JoinedPrefixIff(n, segs);
  }

  lemma JoinedPrefixIff(n: seq<string>, segs: seq<string>)
    requires n != [] && segs != [] && ProperPath(n) && ProperPath(segs)
    ensures Join(segs, '/') == Join(n, '/') || (Join(n, '/') + ['/']) <= Join(segs, '/') <==> n <= segs
  {
    var a, b := Join(n, '/'), Join(segs, '/');
    SplitJoin(n, '/');
    SplitJoin(segs, '/');
    if n <= segs && n != segs {
      assert segs == n + segs[|n|..];
      JoinConcat(n, segs[|n|..], '/');
    }
    if (a + ['/']) <= b {
      var more := b[|a| + 1..];
      assert b == a + ['/'] + more;
      SplitConcat(a, more, '/');
    }
  }

  lemma TextPrefix(a: string, b: string)
    ensures ("/" + b == "/" + a || ("/" + a + "/") <= "/" + b) <==> (b == a || (a + ['/']) <= b)
  {
    assert ("/" + b)[1..] == b && ("/" + a)[1..] == a && ("/" + a + "/")[1..] == a + ['/'];
    if ("/" + a + "/") <= "/" + b { assert ("/" + b)[..|a| + 2][1..] == b[..|a| + 1]; }
    if (a + ['/']) <= b { assert b[..|a| + 1] == a + ['/']; assert ("/" + b)[..|a| + 2] == "/" + b[..|a| + 1]; }
  }
}
