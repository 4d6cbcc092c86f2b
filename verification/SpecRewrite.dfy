/** internal/restore/specrewrite.go: the OCI spec of the checkpointed container, rewritten to
    join the placeholder pod's sandbox. */
module SpecRewrite {
  import opened Paths
  import opened Manifests

  // ----- the sandbox directory in a mount source -----

  const HEAD := "/sandboxes/"
  const ID_LENGTH := 64

  predicate HexDigit(c: char) { '0' <= c <= '9' || 'a' <= c <= 'f' }

  predicate AllHex(s: string) { forall i | 0 <= i < |s| :: HexDigit(s[i]) }

  /** The sandbox pattern matches at the front of s. */
  predicate Match(s: string) {
    |s| >= 76 && s[..11] == HEAD && AllHex(s[11..75]) && s[75] == '/'
  }

  /** ReplaceAllString: leftmost matches that do not overlap, the closing slash included. */
  function ReplaceIds(s: string, id: string): string {
    if s == "" then ""
    else if Match(s) then HEAD + id + "/" + ReplaceIds(s[76..], id)
    else [s[0]] + ReplaceIds(s[1..], id)
  }

  predicate SandboxId(id: string) { |id| == ID_LENGTH && AllHex(id) }

  lemma {:induction false} ReplaceKeepsLength(s: string, id: string)
    requires SandboxId(id)
    ensures |ReplaceIds(s, id)| == |s|
  {
    if s == "" {
    } else if Match(s) {
      ReplaceKeepsLength(s[76..], id);
    } else {
      ReplaceKeepsLength(s[1..], id);
    }
  }

  /** Up to its first match the string is unchanged, and there the output starts one too. */
  lemma {:induction false} FirstMatch(s: string, id: string) returns (p: nat)
    requires SandboxId(id)
    ensures p <= |s| && p <= |ReplaceIds(s, id)| && ReplaceIds(s, id)[..p] == s[..p]
    ensures p < |s| ==> Match(s[p..]) && |ReplaceIds(s, id)| >= p + 76 && ReplaceIds(s, id)[p..p + 11] == HEAD
    ensures p == |s| ==> ReplaceIds(s, id) == s
  {
    if s == "" || Match(s) {
      p := 0;
    } else {
      var q := FirstMatch(s[1..], id);
      p := q + 1;
      assert s == [s[0]] + s[1..];
      OneLater(s[0], s[1..], ReplaceIds(s[1..], id), q);
    }
  }

  /** Two texts that agree up to q, with one more character in front. */
  lemma OneLater(c: char, t: string, r: string, q: nat)
    requires q <= |t| && q <= |r| && r[..q] == t[..q]
    ensures ([c] + r)[..q + 1] == ([c] + t)[..q + 1]
    ensures ([c] + t)[q + 1..] == t[q..]
    ensures |r| >= q + 76 ==> ([c] + r)[q + 1..q + 12] == r[q..q + 11]
  {
    assert ([c] + r)[..q + 1] == [c] + r[..q] && ([c] + t)[..q + 1] == [c] + t[..q];
  }

  lemma HeadShape(w: string)
    requires w == HEAD
    ensures w[0] == '/' && w[1] == 's' && w[10] == '/' && forall i | 1 <= i < 10 :: w[i] != '/'
  {
  }

  lemma MatchShape(w: string)
    requires Match(w)
    ensures w[0] == '/' && w[1] == 's' && w[10] == '/' && w[75] == '/'
    ensures forall i | 1 <= i < 10 :: w[i] != '/'
    ensures forall i | 11 <= i < 75 :: HexDigit(w[i])
  {
    HeadShape(w[..11]);
    assert forall i | 0 <= i < 11 :: w[i] == w[..11][i];
    assert forall i | 11 <= i < 75 :: w[i] == w[11..75][i - 11];
  }

  /** Replacing creates no match that was not there: the slashes of a match pin it down. */
  lemma NoNewMatch(c: char, t: string, id: string)
    requires SandboxId(id) && Match([c] + ReplaceIds(t, id))
    ensures Match([c] + t)
  {
    var r := ReplaceIds(t, id);
    var whole := [c] + r;
    var p := FirstMatch(t, id);
    ReplaceKeepsLength(t, id);
    MatchShape(whole);
    if p < 75 {
      HeadShape(r[p..p + 11]);
      assert r[p] == r[p..p + 11][0] && r[p + 1] == r[p..p + 11][1];
      assert whole[p + 1] == r[p] && whole[p + 2] == r[p + 1];
      assert p == 74;
    }
    assert |t| >= 75 && r[..74] == t[..74];
    SameFront(c, t, r, p);
  }

  lemma SameFront(c: char, t: string, r: string, p: nat)
    requires |t| == |r| >= 75 && 74 <= p <= |t| && r[..p] == t[..p] && Match([c] + r)
    requires p == 74 ==> t[74] == '/'
    ensures Match([c] + t)
  {
    var a, b := [c] + r, [c] + t;
    assert forall i | 0 <= i < 74 :: t[i] == r[i] by { assert forall i | 0 <= i < 74 :: r[..p][i] == t[..p][i]; }
    assert a[..11] == b[..11] && a[11..75] == b[11..75];
    assert p > 74 ==> r[..p][74] == t[..p][74];
    assert b[75] == t[74] && a[75] == r[74];
  }

  lemma {:induction false} ReplaceIdempotent(s: string, id: string)
    requires SandboxId(id)
    ensures ReplaceIds(ReplaceIds(s, id), id) == ReplaceIds(s, id)
  {
    if s == "" {
    } else if Match(s) {
      ReplaceIdempotent(s[76..], id);
      var r := ReplaceIds(s[76..], id);
      var whole := HEAD + id + "/" + r;
      assert whole[..11] == HEAD && whole[11..75] == id && whole[75] == '/' && whole[76..] == r;
    } else {
      ReplaceIdempotent(s[1..], id);
      var r := ReplaceIds(s[1..], id);
      assert ([s[0]] + r)[1..] == r && [s[0]] + s[1..] == s;
      if Match([s[0]] + r) { NoNewMatch(s[0], s[1..], id); }
    }
  }

  /** Position i of s lies in an id that a match at q stands around, in s and in r. */
  predicate InId(s: string, r: string, q: nat, i: nat) {
    && q + 76 <= |s| && q + 11 <= |r| && i < |s| && i < |r|
    && Match(s[q..]) && q + 11 <= i < q + 75
    && r[q..q + 11] == HEAD && HexDigit(s[i]) && HexDigit(r[i])
  }

  lemma InIdShift(front: string, front': string, s: string, r: string, q: nat, i: nat)
    requires InId(s, r, q, i) && |front| == |front'|
    ensures InId(front + s, front' + r, q + |front|, i + |front|)
  {
    var n := |front|;
    assert (front + s)[q + n..] == s[q..] && (front' + r)[q + n..q + n + 11] == r[q..q + 11];
  }

  lemma InFirstId(s: string, id: string, rest: string, i: nat)
    requires SandboxId(id) && Match(s) && i < 76 && s[i] != (HEAD + id + "/" + rest)[i]
    ensures InId(s, HEAD + id + "/" + rest, 0, i)
  {
    var r := HEAD + id + "/" + rest;
    assert s[0..] == s && r[0..11] == HEAD && r[11..75] == id && r[75] == '/';
    assert forall j | 0 <= j < 11 :: s[j] == s[..11][j] && r[j] == r[0..11][j];
    assert s[11..75][i - 11] == s[i] && r[11..75][i - 11] == r[i];
  }

  /** What one scan step emits, and how far it goes. */
  function Emitted(s: string, id: string): string
    requires s != ""
  {
    if Match(s) then HEAD + id + "/" else [s[0]]
  }

  function Consumed(s: string): nat
    requires s != ""
    ensures Consumed(s) <= |s|
  {
    if Match(s) then 76 else 1
  }

  lemma ReplaceStep(s: string, id: string)
    requires s != "" && SandboxId(id)
    ensures ReplaceIds(s, id) == Emitted(s, id) + ReplaceIds(s[Consumed(s)..], id)
    ensures |Emitted(s, id)| == Consumed(s)
  {
  }

  lemma InFirstStep(s: string, id: string, rest: string, i: nat)
    requires s != "" && SandboxId(id) && i < Consumed(s) && s[i] != (Emitted(s, id) + rest)[i]
    ensures InId(s, Emitted(s, id) + rest, 0, i)
  {
    if Match(s) { InFirstId(s, id, rest, i); }
  }

  /** Only bytes of an id change: a changed position lies inside a match, whose slashes and
      fixed text the output keeps. */
  lemma {:induction false} ChangedInId(s: string, id: string, i: nat) returns (q: nat)
    requires SandboxId(id) && i < |s| && |ReplaceIds(s, id)| == |s| && ReplaceIds(s, id)[i] != s[i]
    ensures InId(s, ReplaceIds(s, id), q, i)
  {
    var k, front := Consumed(s), Emitted(s, id);
    var tail := s[k..];
    var rest := ReplaceIds(tail, id);
    ReplaceStep(s, id);
    ReplaceKeepsLength(tail, id);
    if i < k {
      q := 0;
      InFirstStep(s, id, rest, i);
    } else {
      assert (front + rest)[i] == rest[i - k] && s[i] == tail[i - k];
      var p := ChangedInId(tail, id, i - k);
      assert s == s[..k] + tail;
      InIdShift(s[..k], front, tail, rest, p, i - k);
      q := p + k;
    }
  }

  /** No sandbox directory with an id is named anywhere in s. */
  ghost predicate NoMatch(s: string) { forall q | 0 <= q <= |s| :: !Match(s[q..]) }

  /** Without a match nothing is replaced. */
  lemma {:induction false} ReplaceNone(s: string, id: string)
    requires NoMatch(s)
    ensures ReplaceIds(s, id) == s
  {
    assert s[0..] == s;
    if s != "" {
      forall q | 0 <= q <= |s| - 1 ensures !Match(s[1..][q..]) { assert s[1..][q..] == s[q + 1..]; }
      ReplaceNone(s[1..], id);
    }
  }

  lemma ReplaceSkip(c: char, tail: string, id: string)
    requires !Match([c] + tail)
    ensures ReplaceIds([c] + tail, id) == [c] + ReplaceIds(tail, id)
  {
    assert ([c] + tail)[1..] == tail;
  }

  lemma {:induction false} ReplacePast(front: string, tail: string, id: string)
    requires forall j | 0 <= j < |front| :: !Match((front + tail)[j..])
    ensures ReplaceIds(front + tail, id) == front + ReplaceIds(tail, id)
  {
    if front == "" {
      assert front + tail == tail;
    } else {
      var c, more := front[0], front[1..];
      assert (front + tail)[0..] == front + tail == [c] + (more + tail);
      forall j | 0 <= j < |more| ensures !Match((more + tail)[j..]) {
        assert (more + tail)[j..] == (front + tail)[j + 1..];
      }
      ReplaceSkip(c, more + tail, id);
      ReplacePast(more, tail, id);
    }
  }

  /** The id of the only match is exchanged, whatever the new one is, and nothing else. */
  lemma ReplaceOnly(front: string, old_: string, rest: string, id: string)
    requires SandboxId(old_) && NoMatch(rest)
    requires forall j | 0 <= j < |front| :: !Match((front + HEAD + old_ + "/" + rest)[j..])
    ensures ReplaceIds(front + HEAD + old_ + "/" + rest, id) == front + HEAD + id + "/" + rest
  {
    var tail := HEAD + old_ + "/" + rest;
    assert front + HEAD + old_ + "/" + rest == front + tail;
    ReplacePast(front, tail, id);
    ReplaceHere(old_, rest, id);
    assert front + HEAD + id + "/" + rest == front + (HEAD + id + "/" + rest);
  }

  lemma ReplaceHere(old_: string, rest: string, id: string)
    requires SandboxId(old_) && NoMatch(rest)
    ensures ReplaceIds(HEAD + old_ + "/" + rest, id) == HEAD + id + "/" + rest
  {
    var s := HEAD + old_ + "/" + rest;
    assert s[..11] == HEAD && s[11..75] == old_ && s[75] == '/' && s[76..] == rest;
    ReplaceNone(rest, id);
  }

  /** In general: qs are the leftmost matches that do not overlap. Each has the new id, and
      outside of them nothing is changed. */
  ghost predicate Swapped(s: string, r: string, id: string, qs: seq<nat>) {
    |r| == |s| && Spread(qs) && IdsAt(s, r, id, qs) && MatchesIn(s, qs) && ChangedIn(s, r, qs)
  }

  ghost predicate Spread(qs: seq<nat>) { forall j, k | 0 <= j < k < |qs| :: qs[j] + 76 <= qs[k] }

  ghost predicate IdsAt(s: string, r: string, id: string, qs: seq<nat>) {
    forall k | 0 <= k < |qs| :: IdAt(s, r, id, qs[k])
  }

  ghost predicate MatchesIn(s: string, qs: seq<nat>) {
    forall q | 0 <= q <= |s| && Match(s[q..]) :: Overlaps(qs, q)
  }

  ghost predicate ChangedIn(s: string, r: string, qs: seq<nat>)
    requires |r| == |s|
  {
    forall i | 0 <= i < |s| && r[i] != s[i] :: Overlaps(qs, i)
  }

  ghost predicate IdAt(s: string, r: string, id: string, q: nat) {
    q + 76 <= |s| && q + 76 <= |r| && Match(s[q..]) && r[q..q + 76] == HEAD + id + "/"
  }

  ghost predicate Overlaps(qs: seq<nat>, i: int) { exists k :: 0 <= k < |qs| && qs[k] <= i < qs[k] + 76 }

  function Shift(qs: seq<nat>, n: nat): seq<nat> { seq(|qs|, k requires 0 <= k < |qs| => qs[k] + n) }

  /** The matches of s: one at its front, if there is one, and those behind the first step. */
  function Next(s: string, ps: seq<nat>): seq<nat>
    requires s != ""
  {
    (if Match(s) then [0] else []) + Shift(ps, Consumed(s))
  }

  lemma {:induction false} ReplaceSwaps(s: string, id: string) returns (qs: seq<nat>)
    requires SandboxId(id)
    ensures Swapped(s, ReplaceIds(s, id), id, qs)
  {
    ReplaceKeepsLength(s, id);
    qs := [];
    if s != "" {
      var tail := s[Consumed(s)..];
      var ps := ReplaceSwaps(tail, id);
      ReplaceStep(s, id);
      qs := Next(s, ps);
      OrderLater(s, ps);
      IdsLater(s, ReplaceIds(tail, id), id, ps);
      MatchesLater(s, ps);
      ChangesLater(s, ReplaceIds(tail, id), id, ps);
    }
  }

  lemma OrderLater(s: string, ps: seq<nat>)
    requires s != "" && Spread(ps)
    ensures Spread(Next(s, ps))
  {
  }

  lemma IdsLater(s: string, rest: string, id: string, ps: seq<nat>)
    requires s != "" && SandboxId(id) && |rest| == |s| - Consumed(s) && IdsAt(s[Consumed(s)..], rest, id, ps)
    ensures IdsAt(s, Emitted(s, id) + rest, id, Next(s, ps))
  {
    var qs := Next(s, ps);
    forall k | 0 <= k < |qs| ensures IdAt(s, Emitted(s, id) + rest, id, qs[k]) {
      var m := |qs| - |ps|;
      if k < m {
        FirstIdAt(s, id, rest);
      } else {
        assert qs[k] == ps[k - m] + Consumed(s);
        IdAtLater(s, id, rest, ps[k - m]);
      }
    }
  }

  lemma FirstIdAt(s: string, id: string, rest: string)
    requires SandboxId(id) && Match(s)
    ensures IdAt(s, HEAD + id + "/" + rest, id, 0)
  {
    assert s[0..] == s && (HEAD + id + "/" + rest)[0..76] == HEAD + id + "/";
  }

  lemma IdAtLater(s: string, id: string, rest: string, p: nat)
    requires s != "" && SandboxId(id) && |rest| == |s| - Consumed(s) && IdAt(s[Consumed(s)..], rest, id, p)
    ensures IdAt(s, Emitted(s, id) + rest, id, p + Consumed(s))
  {
    var n, r := Consumed(s), Emitted(s, id) + rest;
    ReplaceStep(s, id);
    SliceBehind(s[..n], s[n..], p, |s| - n - p);
    SliceBehind(Emitted(s, id), rest, p, 76);
    assert s == s[..n] + s[n..] && s[n..][p..] == s[n..][p..p + (|s| - n - p)] && s[p + n..] == s[p + n..|s|];
  }

  lemma SliceBehind(front: string, back: string, p: nat, m: nat)
    requires p + m <= |back|
    ensures (front + back)[p + |front|..p + |front| + m] == back[p..p + m]
  {
  }

  lemma MatchesLater(s: string, ps: seq<nat>)
    requires s != "" && MatchesIn(s[Consumed(s)..], ps)
    ensures MatchesIn(s, Next(s, ps))
  {
    var n := Consumed(s);
    assert s[0..] == s;
    forall q | 0 <= q <= |s| && Match(s[q..]) ensures Overlaps(Next(s, ps), q) {
      if q >= n { assert s[n..][q - n..] == s[q..]; }
      OverlapsLater(s, ps, q);
    }
  }

  lemma ChangesLater(s: string, rest: string, id: string, ps: seq<nat>)
    requires s != "" && SandboxId(id) && |rest| == |s| - Consumed(s) && ChangedIn(s[Consumed(s)..], rest, ps)
    ensures |Emitted(s, id) + rest| == |s| && ChangedIn(s, Emitted(s, id) + rest, Next(s, ps))
  {
    var n, r := Consumed(s), Emitted(s, id) + rest;
    ReplaceStep(s, id);
    forall i | 0 <= i < |s| && r[i] != s[i] ensures Overlaps(Next(s, ps), i) {
      if i >= n { assert r[i] == rest[i - n] && s[i] == s[n..][i - n]; }
      OverlapsLater(s, ps, i);
    }
  }

  lemma OverlapsLater(s: string, ps: seq<nat>, i: nat)
    requires s != "" && if i < Consumed(s) then Match(s) else Overlaps(ps, i - Consumed(s))
    ensures Overlaps(Next(s, ps), i)
  {
    var n, qs := Consumed(s), Next(s, ps);
    if i < n {
      assert qs[0] == 0;
    } else {
      var k :| 0 <= k < |ps| && ps[k] <= i - n < ps[k] + 76;
      assert qs[k + |qs| - |ps|] == ps[k] + n;
    }
  }

  // ----- mount options -----

  predicate Propagation(o: string) {
    o in {"shared", "rshared", "slave", "rslave", "private", "rprivate", "unbindable", "runbindable"}
  }

  predicate Contains(s: string, sub: string) {
    |sub| <= |s| && (s[..|sub|] == sub || Contains(s[1..], sub))
  }

  /** The options that make ensureOption drop the competing ones. */
  predicate Competing(opt: string) {
    Contains(opt, "private") || Contains(opt, "shared") || Contains(opt, "slave")
  }

  function NonPropagation(opts: seq<string>): seq<string> {
    if opts == [] then [] else
    var before, last := NonPropagation(opts[..|opts| - 1]), opts[|opts| - 1];
    if Propagation(last) then before else before + [last]
  }

  function Ensured(opts: seq<string>, opt: string): seq<string> {
    if opt in opts then opts
    else (if Competing(opt) then NonPropagation(opts) else opts) + [opt]
  }

  /** The in-place filter of ensureOption. */
  method Compact(a: array<string>, n: nat) returns (j: nat)
    requires n <= a.Length
    modifies a
    ensures j <= n && a[..j] == NonPropagation(old(a[..n]))
  {
    j := 0;
    ghost var opts := a[..n];
    for i := 0 to n
      invariant j <= i && a[..j] == NonPropagation(opts[..i])
      invariant forall k | i <= k < n :: a[k] == opts[k]
    {
      assert opts[..i + 1] == opts[..i] + [opts[i]];
      NonPropagationAppend(opts[..i], opts[i]);
      var o := a[i];
      if !Propagation(o) {
        ghost var kept := a[..j];
        a[j] := o;
        j := j + 1;
        assert a[..j] == kept + [o];
      }
    }
    assert opts[..n] == opts;
  }

  /** append: in place where there is room, else to a copy. */
  method Append(a: array<string>, j: nat, opt: string) returns (b: array<string>, k: nat)
    requires j <= a.Length
    modifies a
    ensures k == j + 1 <= b.Length && b[..k] == old(a[..j]) + [opt]
    ensures b == a || fresh(b)
  {
    if j < a.Length {
      a[j] := opt;
      b := a;
    } else {
      b := new string[j + 1](i requires 0 <= i <= j reads a => if i < j && i < a.Length then a[i] else opt);
      assert b[..j] == a[..j];
    }
    k := j + 1;
    assert b[..k] == b[..j] + [opt];
  }

  /** ensureOption compacts the slice in place before it appends. */
  method EnsureOption(a: array<string>, n: nat, opt: string) returns (b: array<string>, k: nat)
    requires n <= a.Length
    modifies a
    ensures k <= b.Length && b[..k] == Ensured(old(a[..n]), opt)
    ensures b == a || fresh(b)
    ensures opt in old(a[..n]) ==> a[..] == old(a[..])
  {
    if opt in a[..n] { return a, n; }
    var j := n;
    if Competing(opt) { j := Compact(a, n); }
    b, k := Append(a, j, opt);
  }

  lemma {:induction false} NonPropagationIn(opts: seq<string>, o: string)
    ensures o in NonPropagation(opts) <==> o in opts && !Propagation(o)
  {
    if opts != [] { NonPropagationIn(opts[..|opts| - 1], o); }
  }

  lemma {:induction false} NonPropagationFixed(opts: seq<string>)
    requires forall o | o in opts :: !Propagation(o)
    ensures NonPropagation(opts) == opts
  {
    if opts != [] { NonPropagationFixed(opts[..|opts| - 1]); }
  }

  lemma NonPropagationAppend(opts: seq<string>, o: string)
    ensures NonPropagation(opts + [o]) == NonPropagation(opts) + (if Propagation(o) then [] else [o])
  {
    assert (opts + [o])[..|opts|] == opts;
  }

  /** The wanted option is there, the options that are not about propagation stay in their
      order, a second time changes nothing, and the wanted option is the only propagation
      option exactly when it was missing or already the only one. */
  lemma EnsuredMeans(opts: seq<string>, opt: string)
    requires Propagation(opt) && Competing(opt)
    ensures opt in Ensured(opts, opt)
    ensures NonPropagation(Ensured(opts, opt)) == NonPropagation(opts)
    ensures Ensured(Ensured(opts, opt), opt) == Ensured(opts, opt)
    ensures (forall o | o in Ensured(opts, opt) && Propagation(o) :: o == opt)
       <==> opt !in opts || forall o | o in opts && Propagation(o) :: o == opt
  {
    if opt !in opts {
      forall o ensures o in NonPropagation(opts) ==> !Propagation(o) { NonPropagationIn(opts, o); }
      NonPropagationFixed(NonPropagation(opts));
      NonPropagationAppend(NonPropagation(opts), opt);
    }
  }

  /** The option the rewrite asks for on device nodes. */
  lemma RprivateCompetes()
    ensures Propagation("rprivate") && Competing("rprivate")
  {
    assert "rprivate"[1..][..|"private"|] == "private";
  }

  // ----- the host as the agent sees it -----

  /** A fixed directory tree: which paths exist, and what a directory lists. */
  datatype Host = Host(exists_: string -> bool, entries: string -> Option<seq<string>>)

  /** Directory entries have names, without slashes. */
  ghost predicate Named(host: Host) {
    forall dir, i {:trigger host.entries(dir).value[i]}
      | host.entries(dir).Some? && 0 <= i < |host.entries(dir).value| ::
      host.entries(dir).value[i] != "" && '/' !in host.entries(dir).value[i]
  }

  /** The last c before position n. */
  function LastIndexBefore(s: string, c: char, n: nat): (r: Option<nat>)
    requires n <= |s|
    ensures r.None? ==> forall j | 0 <= j < n :: s[j] != c
    ensures r.Some? ==> r.value < n && s[r.value] == c && forall j | r.value < j < n :: s[j] != c
  {
    if n == 0 then None else if s[n - 1] == c then Some(n - 1) else LastIndexBefore(s, c, n - 1)
  }

  function LastIndex(s: string, c: char): (r: Option<nat>)
    ensures r.Some? <==> c in s
    ensures r.Some? ==> r.value < |s| && s[r.value] == c && c !in s[r.value + 1..]
  {
    LastIndexBefore(s, c, |s|)
  }

  /** path.Split: up to and including the last slash, and the rest. */
  function DirPart(s: string): string {
    var i := LastIndex(s, '/');
    if i.Some? then s[..i.value + 1] else ""
  }

  function BasePart(s: string): string { s[|DirPart(s)|..] }

  function WithPrefix(names: seq<string>, prefix: string): seq<string> {
    if names == [] then [] else
    var before, last := WithPrefix(names[..|names| - 1], prefix), names[|names| - 1];
    if prefix <= last then before + [last] else before
  }

  /** The siblings that share a generated name's prefix, up to and including its last dash. */
  function Siblings(host: Host, dir: string, base: string): seq<string> {
    var dash := LastIndex(base, '-');
    if dash.None? || dash.value == 0 || host.entries(dir).None? then []
    else WithPrefix(host.entries(dir).value, base[..dash.value + 1])
  }

  /** A path that exists stays; otherwise its only sibling of the same prefix, if it has one. */
  function ResolvedDir(host: Host, src: string): string {
    var found := Siblings(host, DirPart(src), BasePart(src));
    if host.exists_(src) || |found| != 1 then src else DirPart(src) + found[0]
  }

  /** The scan over a directory: the only name with the prefix, or none. */
  method ScanSiblings(names: seq<string>, prefix: string) returns (found: Option<string>)
    requires forall i | 0 <= i < |names| :: names[i] != ""
    ensures found == if |WithPrefix(names, prefix)| == 1 then Some(WithPrefix(names, prefix)[0]) else None
  {
    var m := "";
    for i := 0 to |names|
      invariant WithPrefix(names[..i], prefix) == if m == "" then [] else [m]
    {
      assert names[..i + 1][..i] == names[..i];
      if prefix <= names[i] {
        if m != "" {
          MoreFound(names, prefix, i + 1);
          return None;
        }
        m := names[i];
      }
    }
    assert names[..|names|] == names;
    found := if m == "" then None else Some(m);
  }

  method ResolveVolumeDir(host: Host, src: string) returns (r: string)
    requires Named(host)
    ensures r == ResolvedDir(host, src)
  {
    if host.exists_(src) { return src; }
    var dir, base := DirPart(src), BasePart(src);
    var dash := LastIndex(base, '-');
    if dash.None? || dash.value == 0 { return src; }
    var entries := host.entries(dir);
    if entries.None? { return src; }
    forall i | 0 <= i < |entries.value| ensures entries.value[i] != "" { assert host.entries(dir).value[i] != ""; }
    var found := ScanSiblings(entries.value, base[..dash.value + 1]);
    r := if found.None? then src else dir + found.value;
  }

  lemma {:induction false} MoreFound(names: seq<string>, prefix: string, i: nat)
    requires i <= |names|
    ensures |WithPrefix(names[..i], prefix)| <= |WithPrefix(names, prefix)|
  {
    if i < |names| {
      assert names[..|names| - 1][..i] == names[..i];
      MoreFound(names[..|names| - 1], prefix, i);
    } else {
      assert names[..i] == names;
    }
  }

  /** A longer prefix of the one name found finds that name again and nothing else. */
  lemma {:induction false} LongerPrefix(names: seq<string>, short: string, long: string, name: string)
    requires short <= long <= name
    requires WithPrefix(names, short) == [name] || WithPrefix(names, short) == []
    ensures WithPrefix(names, long) == WithPrefix(names, short)
  {
    if names != [] {
      var n := |names| - 1;
      if short <= names[n] {
        var before := WithPrefix(names[..n], short);
        assert before + [names[n]] == [name];
        assert |before| == 0 && (before + [names[n]])[0] == names[n];
        LongerPrefix(names[..n], short, long, name);
      } else {
        LongerPrefix(names[..n], short, long, name);
      }
    }
  }

  lemma {:induction false} FoundHasPrefix(names: seq<string>, prefix: string, i: nat) returns (j: nat)
    requires i < |WithPrefix(names, prefix)|
    ensures j < |names| && names[j] == WithPrefix(names, prefix)[i] && prefix <= names[j]
  {
    var n := |names| - 1;
    if i < |WithPrefix(names[..n], prefix)| { j := FoundHasPrefix(names[..n], prefix, i); } else { j := n; }
  }

  lemma LastIndexIs(s: string, c: char, i: nat)
    requires i < |s| && s[i] == c
    ensures LastIndex(s, c).Some? && LastIndex(s, c).value >= i
    ensures c !in s[i + 1..] ==> LastIndex(s, c).value == i
  {
    var r := LastIndex(s, c).value;
    forall k | r < k < |s| ensures s[k] != c { assert s[r + 1..][k - r - 1] == s[k]; }
    if c !in s[i + 1..] {
      forall k | i < k < |s| ensures s[k] != c { assert s[i + 1..][k - i - 1] == s[k]; }
    }
  }

  lemma SplitBack(dir: string, base: string)
    requires (dir == "" || dir[|dir| - 1] == '/') && '/' !in base
    ensures DirPart(dir + base) == dir && BasePart(dir + base) == base
  {
    var s := dir + base;
    if dir == "" {
      assert s == base;
    } else {
      assert s[|dir| - 1 + 1..] == base && s[..|dir|] == dir;
      LastIndexIs(s, '/', |dir| - 1);
    }
  }

  /** The name found, split at its own last dash, is found again. */
  lemma FoundAgain(names: seq<string>, prefix: string, dash: nat, name: string)
    requires |prefix| == dash + 1 && prefix[dash] == '-' && dash > 0 && prefix <= name
    requires WithPrefix(names, prefix) == [name]
    ensures LastIndex(name, '-').Some? && LastIndex(name, '-').value > 0
    ensures WithPrefix(names, name[..LastIndex(name, '-').value + 1]) == [name]
  {
    assert name[dash] == prefix[dash];
    LastIndexIs(name, '-', dash);
    var long := name[..LastIndex(name, '-').value + 1];
    assert prefix == name[..dash + 1] == long[..dash + 1];
    LongerPrefix(names, prefix, long, name);
  }

  /** path is directory, stem and generated part; in the directory there is one entry with
      that stem and dash, and other is its path. */
  ghost predicate OnlySibling(host: Host, path: string, other: string) {
    exists dir, stem, made, i ::
      && Generated(path, dir, stem, made) && host.entries(dir).Some?
      && OnlyNamed(host.entries(dir).value, stem + "-", i) && other == dir + host.entries(dir).value[i]
  }

  ghost predicate Generated(path: string, dir: string, stem: string, made: string) {
    && path == dir + stem + "-" + made && stem != "" && '/' !in stem && '/' !in made && '-' !in made
    && (dir == "" || dir[|dir| - 1] == '/')
  }

  ghost predicate OnlyNamed(names: seq<string>, prefix: string, i: int) {
    && 0 <= i < |names| && prefix <= names[i]
    && forall j | 0 <= j < |names| && j != i :: !(prefix <= names[j])
  }

  lemma {:induction false} WithPrefixNone(names: seq<string>, prefix: string)
    requires forall j | 0 <= j < |names| :: !(prefix <= names[j])
    ensures WithPrefix(names, prefix) == []
  {
    if names != [] { WithPrefixNone(names[..|names| - 1], prefix); }
  }

  lemma {:induction false} WithPrefixOne(names: seq<string>, prefix: string, i: nat)
    requires OnlyNamed(names, prefix, i)
    ensures WithPrefix(names, prefix) == [names[i]]
  {
    var n := |names| - 1;
    if i < n { WithPrefixOne(names[..n], prefix, i); } else { WithPrefixNone(names[..n], prefix); }
  }

  lemma {:induction false} WithPrefixOnly(names: seq<string>, prefix: string) returns (i: nat)
    requires |WithPrefix(names, prefix)| == 1
    ensures OnlyNamed(names, prefix, i) && WithPrefix(names, prefix) == [names[i]]
  {
    var n := |names| - 1;
    var before := names[..n];
    if prefix <= names[n] {
      assert WithPrefix(before, prefix) == [];
      forall j | 0 <= j < n ensures !(prefix <= names[j]) { PrefixFound(before, prefix, j); }
      i := n;
    } else {
      i := WithPrefixOnly(before, prefix);
      forall j | 0 <= j < n && j != i ensures !(prefix <= names[j]) { assert before[j] == names[j]; }
    }
  }

  lemma {:induction false} PrefixFound(names: seq<string>, prefix: string, j: nat)
    requires j < |names| && WithPrefix(names, prefix) == []
    ensures !(prefix <= names[j])
  {
    if j < |names| - 1 { PrefixFound(names[..|names| - 1], prefix, j); }
  }

  /** How a path splits is a matter of its last slash and dash. */
  lemma GeneratedIs(path: string, dir: string, stem: string, made: string)
    requires Generated(path, dir, stem, made)
    ensures DirPart(path) == dir && BasePart(path) == stem + "-" + made
    ensures LastIndex(BasePart(path), '-') == Some(|stem|)
  {
    var base := stem + "-" + made;
    assert path == dir + base && '/' !in base;
    SplitBack(dir, base);
    assert base[|stem|] == '-' && base[|stem| + 1..] == made;
    LastIndexIs(base, '-', |stem|);
  }

  lemma GeneratedBy(dir: string, base: string, dash: nat)
    requires dash < |base| && base[dash] == '-' && '-' !in base[dash + 1..] && dash > 0 && '/' !in base
    requires dir == "" || dir[|dir| - 1] == '/'
    ensures Generated(dir + base, dir, base[..dash], base[dash + 1..])
  {
    var stem, made := base[..dash], base[dash + 1..];
    assert base == stem + "-" + made;
    assert dir + base == dir + stem + "-" + made;
    NotInPart(base, dash, '/');
  }

  lemma NotInPart(s: string, n: nat, c: char)
    requires n < |s| && c !in s
    ensures c !in s[..n] && c !in s[n + 1..]
  {
    forall k | 0 <= k < |s| ensures s[k] != c { assert s[k] in s; }
  }

  lemma DirBase(path: string)
    ensures DirPart(path) == "" || DirPart(path)[|DirPart(path)| - 1] == '/'
    ensures '/' !in BasePart(path)
  {
  }

  /** What the scan is for: a path that exists is kept; one that is gone gives way to its
      only sibling, and is kept where it has none or more than one. */
  ghost predicate Settled(host: Host, path: string, home: string) {
    && (host.exists_(path) ==> home == path)
    && (!host.exists_(path) && home != path ==> OnlySibling(host, path, home))
    && (forall other | !host.exists_(path) && OnlySibling(host, path, other) :: home == other)
  }

  lemma ResolvedSettles(host: Host, src: string)
    ensures Settled(host, src, ResolvedDir(host, src))
  {
    if !host.exists_(src) {
      if ResolvedDir(host, src) != src { ResolvedIsSibling(host, src); }
      forall other | OnlySibling(host, src, other) ensures ResolvedDir(host, src) == other {
        SiblingIsFound(host, src, other);
      }
    }
  }

  lemma ResolvedIsSibling(host: Host, src: string)
    requires ResolvedDir(host, src) != src
    ensures OnlySibling(host, src, ResolvedDir(host, src))
  {
    DirBase(src);
    assert DirPart(src) + BasePart(src) == src;
    FoundIsSibling(host, DirPart(src), BasePart(src));
  }

  lemma FoundIsSibling(host: Host, dir: string, base: string)
    requires |Siblings(host, dir, base)| == 1 && '/' !in base && (dir == "" || dir[|dir| - 1] == '/')
    ensures OnlySibling(host, dir + base, dir + Siblings(host, dir, base)[0])
  {
    var dash := LastIndex(base, '-').value;
    GeneratedBy(dir, base, dash);
    assert base[..dash + 1] == base[..dash] + "-";
    var i := WithPrefixOnly(host.entries(dir).value, base[..dash] + "-");
    SiblingBy(host, dir + base, dir, base[..dash], base[dash + 1..], i);
  }

  lemma SiblingBy(host: Host, path: string, dir: string, stem: string, made: string, i: nat)
    requires Generated(path, dir, stem, made) && host.entries(dir).Some?
    requires OnlyNamed(host.entries(dir).value, stem + "-", i)
    ensures OnlySibling(host, path, dir + host.entries(dir).value[i])
  {
  }

  lemma SiblingIsFound(host: Host, src: string, other: string)
    requires !host.exists_(src) && OnlySibling(host, src, other)
    ensures ResolvedDir(host, src) == other
  {
    var d, stem, made, i :|
      && Generated(src, d, stem, made) && host.entries(d).Some?
      && OnlyNamed(host.entries(d).value, stem + "-", i) && other == d + host.entries(d).value[i];
    GeneratedIs(src, d, stem, made);
    SiblingsOf(host, d, stem, made, i);
  }

  lemma SiblingsOf(host: Host, dir: string, stem: string, made: string, i: nat)
    requires LastIndex(stem + "-" + made, '-') == Some(|stem|) && stem != "" && host.entries(dir).Some?
    requires OnlyNamed(host.entries(dir).value, stem + "-", i)
    ensures Siblings(host, dir, stem + "-" + made) == [host.entries(dir).value[i]]
  {
    assert (stem + "-" + made)[..|stem| + 1] == stem + "-";
    WithPrefixOne(host.entries(dir).value, stem + "-", i);
  }

  /** Resolving twice on a fixed tree is resolving once, even where the entry found is a
      dangling link that does not exist when asked for. */
  lemma ResolveIdempotent(host: Host, src: string)
    requires Named(host)
    ensures ResolvedDir(host, ResolvedDir(host, src)) == ResolvedDir(host, src)
  {
    var dir, base := DirPart(src), BasePart(src);
    var found := Siblings(host, dir, base);
    if !host.exists_(src) && |found| == 1 {
      SiblingAgain(host, dir, base, found[0]);
      assert ResolvedDir(host, src) == dir + found[0];
      SplitBack(dir, found[0]);
    }
  }

  lemma SiblingAgain(host: Host, dir: string, base: string, name: string)
    requires Named(host) && Siblings(host, dir, base) == [name]
    ensures '/' !in name && Siblings(host, dir, name) == [name]
  {
    var dash := LastIndex(base, '-').value;
    var names, prefix := host.entries(dir).value, base[..dash + 1];
    var j := FoundHasPrefix(names, prefix, 0);
    assert names[j] == host.entries(dir).value[j];
    FoundAgain(names, prefix, dash, name);
  }

  // ----- the mount list -----

  datatype Mount = Mount(destination: string, kind: string, source: string, options: seq<string>)

  /** A mount CRIU recorded; an empty host path means it has no host backing. */
  datatype ExtraMount = ExtraMount(containerPath: string, hostPath: string)

  /** One mount record of CRIU's dump.log, as scanDumpLog matches it; the place is where it is
      mounted in the container, with its leading slash. */
  datatype MountRecord = MountRecord(fsType: string, source: string, hostPath: string, place: string)

  const ROOT_PLACE := "/."

  ghost predicate DistinctExtras(es: seq<ExtraMount>) {
    forall i, j | 0 <= i < j < |es| :: es[i].containerPath != es[j].containerPath
  }

  /** No record before number i has its place, which is not the root. */
  ghost predicate IsFirst(records: seq<MountRecord>, i: nat)
    requires i < |records|
  {
    records[i].place != ROOT_PLACE && forall j | 0 <= j < i :: records[j].place != records[i].place
  }

  /** em is what the first record at its place says. */
  ghost predicate FirstRecorded(records: seq<MountRecord>, em: ExtraMount) {
    exists i :: 0 <= i < |records| && IsFirst(records, i) && RecordedAs(records[i], em)
  }

  /** Mounted where the record says, with its host path unless it is a tmpfs, by type or source. */
  predicate RecordedAs(x: MountRecord, em: ExtraMount) {
    && em.containerPath == x.place
    && (x.fsType == "tmpfs" || x.source == "tmpfs" ==> em.hostPath == "")
    && (x.fsType != "tmpfs" && x.source != "tmpfs" ==> em.hostPath == x.hostPath)
  }

  /** A tmpfs has no host backing; anything else is taken to be a path of the host. */
  function ExtraFrom(x: MountRecord): ExtraMount {
    ExtraMount(x.place, if x.fsType != "tmpfs" && x.source != "tmpfs" then x.hostPath else "")
  }

  /** seen holds the places but the root of the first n records; where says which one had it. */
  ghost predicate SeenBy(records: seq<MountRecord>, n: nat, seen: set<string>, where: map<string, nat>)
    requires n <= |records|
  {
    && (forall j | 0 <= j < n && records[j].place != ROOT_PLACE :: records[j].place in seen)
    && seen == where.Keys
    && (forall p | p in where :: where[p] < n && records[where[p]].place == p)
  }

  /** extra has what the first record at each place of the first n says, once; from says which
      record that is. */
  ghost predicate TakenBy(records: seq<MountRecord>, n: nat, extra: seq<ExtraMount>, from: seq<nat>)
    requires n <= |records|
  {
    && |from| == |extra|
    && (forall k | 0 <= k < |from| ::
          from[k] < n && IsFirst(records, from[k]) && extra[k] == ExtraFrom(records[from[k]]))
    && (forall k, l | 0 <= k < l < |from| :: from[k] != from[l])
    && (forall j | 0 <= j < n && IsFirst(records, j) :: j in from)
  }

  /** A place in seen is not new, any other is. */
  lemma FirstIff(records: seq<MountRecord>, n: nat, seen: set<string>, where: map<string, nat>)
    requires n < |records| && SeenBy(records, n, seen, where)
    ensures IsFirst(records, n) <==> records[n].place != ROOT_PLACE && records[n].place !in seen
  {
    var p := records[n].place;
    if p in seen { assert records[where[p]].place == p && where[p] < n; }
  }

  lemma TakeNext(records: seq<MountRecord>, n: nat, extra: seq<ExtraMount>, from: seq<nat>)
    requires n < |records| && TakenBy(records, n, extra, from)
    ensures IsFirst(records, n) ==> TakenBy(records, n + 1, extra + [ExtraFrom(records[n])], from + [n])
    ensures !IsFirst(records, n) ==> TakenBy(records, n + 1, extra, from)
  {
    assert (from + [n])[|from|] == n;
    forall j | 0 <= j < n && IsFirst(records, j) ensures j in from + [n] { assert j in from; }
  }

  /** Two first records have two places. */
  lemma TakenDistinct(records: seq<MountRecord>, extra: seq<ExtraMount>, from: seq<nat>)
    requires TakenBy(records, |records|, extra, from)
    ensures DistinctExtras(extra)
    ensures forall k | 0 <= k < |extra| :: FirstRecorded(records, extra[k])
    ensures forall i | 0 <= i < |records| && IsFirst(records, i) ::
              exists k :: 0 <= k < |extra| && RecordedAs(records[i], extra[k])
  {
    forall k, l | 0 <= k < l < |extra| ensures extra[k].containerPath != extra[l].containerPath {
      FirstsApart(records, from[k], from[l]);
    }
    forall k | 0 <= k < |extra| ensures FirstRecorded(records, extra[k]) { assert IsFirst(records, from[k]); }
    forall i | 0 <= i < |records| && IsFirst(records, i)
      ensures exists k :: 0 <= k < |extra| && RecordedAs(records[i], extra[k])
    {
      var k :| 0 <= k < |from| && from[k] == i;
      assert extra[k] == ExtraFrom(records[i]);
    }
  }

  lemma FirstsApart(records: seq<MountRecord>, i: nat, j: nat)
    requires i < |records| && j < |records| && i != j && IsFirst(records, i) && IsFirst(records, j)
    ensures records[i].place != records[j].place
  {
  }

  /** scanDumpLog: one extra mount for each place but the root, what the first record says. */
  method ScanMounts(records: seq<MountRecord>) returns (extra: seq<ExtraMount>)
    ensures DistinctExtras(extra)
    ensures forall k | 0 <= k < |extra| :: FirstRecorded(records, extra[k])
    ensures forall i | 0 <= i < |records| && IsFirst(records, i) ::
              exists k :: 0 <= k < |extra| && RecordedAs(records[i], extra[k])
  {
    extra := [];
    var seen: set<string> := {};
    ghost var where: map<string, nat> := map[];
    ghost var from: seq<nat> := [];
    for i := 0 to |records|
      invariant SeenBy(records, i, seen, where) && TakenBy(records, i, extra, from)
    {
      var x := records[i];
      FirstIff(records, i, seen, where);
      TakeNext(records, i, extra, from);
      if x.place != ROOT_PLACE && x.place !in seen {
        extra, from := extra + [ExtraFrom(x)], from + [i];
        seen, where := seen + {x.place}, where[x.place := i];
      }
    }
    TakenDistinct(records, extra, from);
  }

  datatype Target = Target(pausePID: nat, podUID: string, oldPodUID: string, cgroupsPath: string, rootfsPath: string,
                           sandboxID: string, keeperMounts: map<string, string>, extraMounts: seq<ExtraMount>,
                           hostRoot: string)

  const PODS := "/var/lib/kubelet/pods/"

  function PodPrefix(uid: string): string { PODS + uid + "/" }

  function Base(p: string): string {
    if p == "" then "."
    else
      var t := TrimSlashes(p);
      if t == "" then "/" else BasePart(t)
  }

  function TrimSlashes(p: string): string {
    if p != "" && p[|p| - 1] == '/' then TrimSlashes(p[..|p| - 1]) else p
  }

  predicate IsNvidiaDevice(destination: string) {
    "/dev/" <= destination && "nvidia" <= Base(destination)
  }

  predicate IsBind(m: Mount) { m.kind == "bind" || "bind" in m.options || "rbind" in m.options }

  /** The kubelet directory of the old pod becomes the new pod's. */
  function Remapped(t: Target, source: string): string {
    if t.oldPodUID != "" && t.podUID != "" && PodPrefix(t.oldPodUID) <= source
    then PodPrefix(t.podUID) + source[|PodPrefix(t.oldPodUID)|..] else source
  }

  /** The source before the keeper is asked. */
  function Located(host: Host, t: Target, source: string): string {
    var a := Remapped(t, source);
    var b := if t.sandboxID != "" then ReplaceIds(a, t.sandboxID) else a;
    if PodPrefix(t.podUID) <= b then ResolvedDir(host, b) else b
  }

  function Rewritten(host: Host, t: Target, m: Mount): Mount {
    m.(source := Borrowed(host, t, m, Located(host, t, m.source)),
    options := if IsNvidiaDevice(m.destination) then Ensured(m.options, "rprivate") else m.options)
  }

  method LocateSource(host: Host, t: Target, source: string) returns (r: string)
    requires Named(host)
    ensures r == Located(host, t, source)
  {
    r := Remapped(t, source);
    if t.sandboxID != "" {
      r := ReplaceIds(r, t.sandboxID);
    }
    if PodPrefix(t.podUID) <= r {
      r := ResolveVolumeDir(host, r);
    }
  }

  /** NVIDIA device nodes must stay private. */
  method DeviceOptions(m: Mount) returns (options: seq<string>)
    ensures options == if IsNvidiaDevice(m.destination) then Ensured(m.options, "rprivate") else m.options
  {
    options := m.options;
    if IsNvidiaDevice(m.destination) {
      var n := |m.options|;
      var a := new string[n](i requires 0 <= i < n => m.options[i]);
      assert a[..n] == m.options;
      var b, k := EnsureOption(a, n, "rprivate");
      options := b[..k];
    }
  }

  /** The last resort for a bind source that is gone: the keeper's, for the same destination. */
  function Borrowed(host: Host, t: Target, m: Mount, located: string): string {
    if IsBind(m) && !host.exists_(located) && m.destination in t.keeperMounts && t.keeperMounts[m.destination] != ""
    then t.keeperMounts[m.destination] else located
  }

  method RewriteMount(host: Host, t: Target, m: Mount) returns (r: Mount)
    requires Named(host)
    ensures r == Rewritten(host, t, m)
  {
    var located := LocateSource(host, t, m.source);
    var options := DeviceOptions(m);
    r := m.(source := Borrowed(host, t, m, located), options := options);
  }

  function RewrittenAll(host: Host, t: Target, ms: seq<Mount>): (r: seq<Mount>)
    ensures |r| == |ms|
  {
    if ms == [] then [] else RewrittenAll(host, t, ms[..|ms| - 1]) + [Rewritten(host, t, ms[|ms| - 1])]
  }

  lemma {:induction false} RewrittenAt(host: Host, t: Target, ms: seq<Mount>, i: nat)
    requires i < |ms|
    ensures RewrittenAll(host, t, ms)[i] == Rewritten(host, t, ms[i])
  {
    if i < |ms| - 1 { RewrittenAt(host, t, ms[..|ms| - 1], i); }
  }

  // ----- what a source becomes -----

  /** Mounted by bind, by its type or by one of its options. */
  ghost predicate Bound(m: Mount) {
    m.kind == "bind" || exists k :: 0 <= k < |m.options| && (m.options[k] == "bind" || m.options[k] == "rbind")
  }

  /** Both pods are known, and the source is rest in the old one's directory. */
  ghost predicate OfOldPod(t: Target, source: string, rest: string) {
    t.oldPodUID != "" && t.podUID != "" && source == PODS + t.oldPodUID + "/" + rest
  }

  ghost predicate OfNewPod(t: Target, source: string) { PODS + t.podUID + "/" <= source }

  /** The sandbox is known and source names one: its directory gets the new sandbox's id. */
  function Reissued(t: Target, source: string): string {
    if t.sandboxID != "" then ReplaceIds(source, t.sandboxID) else source
  }

  /** There is no sandbox to be exchanged in it. */
  ghost predicate NoSandbox(t: Target, source: string) { t.sandboxID == "" || NoMatch(source) }

  /** A volume of the new pod is looked for among its siblings. */
  ghost predicate Homed(host: Host, t: Target, source: string, home: string) {
    if OfNewPod(t, source) then Settled(host, source, home) else home == source
  }

  /** A bind mount whose source is gone takes the keeper's for its destination, if the keeper
      has one; nothing else does. */
  ghost predicate LastResort(host: Host, t: Target, m: Mount, home: string, r: string) {
    if Bound(m) && !host.exists_(home) && m.destination in t.keeperMounts && t.keeperMounts[m.destination] != ""
    then r == t.keeperMounts[m.destination] else r == home
  }

  /** r is what the source of a dumped mount is to become. */
  ghost predicate SourceMeans(host: Host, t: Target, m: Mount, r: string) {
    exists home ::
      && LastResort(host, t, m, home, r)
      && (forall rest | OfOldPod(t, m.source, rest) ::
            Homed(host, t, Reissued(t, PODS + t.podUID + "/" + rest), home))
      && ((forall rest :: !OfOldPod(t, m.source, rest)) ==> Homed(host, t, Reissued(t, m.source), home))
  }

  lemma RemappedMeans(t: Target, source: string, rest: string)
    ensures OfOldPod(t, source, rest) ==> Remapped(t, source) == PODS + t.podUID + "/" + rest
    ensures (forall any :: !OfOldPod(t, source, any)) ==> Remapped(t, source) == source
  {
    var p := PodPrefix(t.oldPodUID);
    assert p == PODS + t.oldPodUID + "/" && PodPrefix(t.podUID) == PODS + t.podUID + "/";
    if OfOldPod(t, source, rest) {
      assert source == p + rest && source[|p|..] == rest;
    } else if t.oldPodUID != "" && t.podUID != "" && p <= source {
      assert source == p + source[|p|..];
      assert OfOldPod(t, source, source[|p|..]);
    }
  }

  lemma LocatedHome(host: Host, t: Target, source: string)
    ensures Homed(host, t, Reissued(t, Remapped(t, source)), Located(host, t, source))
  {
    assert PodPrefix(t.podUID) == PODS + t.podUID + "/";
    ResolvedSettles(host, Reissued(t, Remapped(t, source)));
  }

  lemma BorrowedLast(host: Host, t: Target, m: Mount, home: string)
    ensures LastResort(host, t, m, home, Borrowed(host, t, m, home))
  {
  }

  lemma RewrittenSource(host: Host, t: Target, m: Mount)
    ensures SourceMeans(host, t, m, Rewritten(host, t, m).source)
  {
    var home := Located(host, t, m.source);
    LocatedHome(host, t, m.source);
    BorrowedLast(host, t, m, home);
    forall rest ensures OfOldPod(t, m.source, rest) ==>
                          Homed(host, t, Reissued(t, PODS + t.podUID + "/" + rest), home)
    {
      RemappedMeans(t, m.source, rest);
    }
    RemappedMeans(t, m.source, "");
  }

  /** A volume of the old pod: the same path in the new one's directory if that exists, else
      its only sibling there, else itself; and if that is gone too, the keeper's. */
  lemma VolumeSource(host: Host, t: Target, m: Mount, r: string, rest: string)
    requires SourceMeans(host, t, m, r) && OfOldPod(t, m.source, rest)
    requires NoSandbox(t, PODS + t.podUID + "/" + rest)
    ensures var moved := PODS + t.podUID + "/" + rest;
            && (host.exists_(moved) ==> r == moved)
            && (forall other | !host.exists_(moved) && OnlySibling(host, moved, other) ::
                  LastResort(host, t, m, other, r))
            && (!host.exists_(moved) && (forall other :: !OnlySibling(host, moved, other)) ==>
                  LastResort(host, t, m, moved, r))
  {
    var moved := PODS + t.podUID + "/" + rest;
    if t.sandboxID != "" { ReplaceNone(moved, t.sandboxID); }
    assert OfNewPod(t, moved);
  }

  /** A file of a sandbox: the same of the new sandbox. */
  lemma SandboxSource(host: Host, t: Target, m: Mount, r: string, front: string, id: string, rest: string)
    requires SourceMeans(host, t, m, r) && t.sandboxID != "" && (forall any :: !OfOldPod(t, m.source, any))
    requires m.source == front + HEAD + id + "/" + rest && SandboxId(id) && NoMatch(rest)
    requires forall j | 0 <= j < |front| :: !Match(m.source[j..])
    requires !OfNewPod(t, front + HEAD + t.sandboxID + "/" + rest)
    ensures LastResort(host, t, m, front + HEAD + t.sandboxID + "/" + rest, r)
  {
    ReplaceOnly(front, id, rest, t.sandboxID);
  }

  /** Any other source stays, unless it is gone and the keeper has one; a source in the new
      pod's directory is only looked for among its siblings. */
  lemma OtherSource(host: Host, t: Target, m: Mount, r: string)
    requires SourceMeans(host, t, m, r) && (forall any :: !OfOldPod(t, m.source, any)) && NoSandbox(t, m.source)
    ensures !OfNewPod(t, m.source) ==> LastResort(host, t, m, m.source, r)
    ensures OfNewPod(t, m.source) ==> exists home :: Settled(host, m.source, home) && LastResort(host, t, m, home, r)
  {
    if t.sandboxID != "" { ReplaceNone(m.source, t.sandboxID); }
  }

  // ----- what the options become -----

  /** A device node of that name somewhere below /dev, however many slashes it ends in. */
  ghost predicate DeviceNode(destination: string, name: string) {
    exists dir, slashes ::
      && destination == "/dev/" + dir + name + slashes && name != "" && '/' !in name
      && (dir == "" || dir[|dir| - 1] == '/') && AllSlashes(slashes)
  }

  ghost predicate AllSlashes(s: string) { forall k | 0 <= k < |s| :: s[k] == '/' }

  lemma {:induction false} TrimTail(p: string, slashes: string)
    requires (p == "" || p[|p| - 1] != '/') && AllSlashes(slashes)
    ensures TrimSlashes(p + slashes) == p
  {
    var n := |slashes|;
    if n == 0 {
      assert p + slashes == p;
    } else {
      assert (p + slashes)[..|p + slashes| - 1] == p + slashes[..n - 1];
      TrimTail(p, slashes[..n - 1]);
    }
  }

  lemma {:induction false} TrimmedTail(p: string) returns (slashes: string)
    ensures p == TrimSlashes(p) + slashes && AllSlashes(slashes)
    ensures TrimSlashes(p) == "" || TrimSlashes(p)[|TrimSlashes(p)| - 1] != '/'
  {
    slashes := "";
    if p != "" && p[|p| - 1] == '/' {
      var s := TrimmedTail(p[..|p| - 1]);
      slashes := s + "/";
      assert p == p[..|p| - 1] + "/";
    }
  }

  /** The devices that must stay private, said of the path. */
  lemma NvidiaIff(destination: string)
    ensures IsNvidiaDevice(destination) <==> exists name :: DeviceNode(destination, name) && "nvidia" <= name
  {
    if name :| DeviceNode(destination, name) && "nvidia" <= name { NodeIsNvidia(destination, name); }
    if IsNvidiaDevice(destination) { NvidiaIsNode(destination); }
  }

  lemma NodeIsNvidia(destination: string, name: string)
    requires DeviceNode(destination, name)
    ensures "/dev/" <= destination && Base(destination) == name
  {
    var dir, slashes :|
      && destination == "/dev/" + dir + name + slashes && name != "" && '/' !in name
      && (dir == "" || dir[|dir| - 1] == '/') && AllSlashes(slashes);
    var whole := "/dev/" + dir;
    assert whole[|whole| - 1] == '/' && (whole + name)[|whole + name| - 1] in name;
    TrimTail(whole + name, slashes);
    SplitBack(whole, name);
  }

  lemma NvidiaIsNode(destination: string)
    requires IsNvidiaDevice(destination)
    ensures DeviceNode(destination, Base(destination)) && "nvidia" <= Base(destination)
  {
    var slashes := TrimmedTail(destination);
    var p := TrimSlashes(destination);
    var name := Base(destination);
    assert |name| >= 6 && name[..6] == "nvidia" && name[0] == 'n';
    assert p != "";
    DirBase(p);
    var whole := DirPart(p);
    assert p == whole + name && name == BasePart(p);
    assert destination[..5] == "/dev/" && destination[4] == '/' && destination[0] == '/';
    assert |whole| >= 5;
    UnderDev(destination, whole, name, slashes);
  }

  lemma UnderDev(destination: string, whole: string, name: string, slashes: string)
    requires destination == whole + name + slashes && "/dev/" <= destination && |whole| >= 5
    requires whole[|whole| - 1] == '/' && name != "" && '/' !in name && AllSlashes(slashes)
    ensures DeviceNode(destination, name)
  {
    var dir := whole[5..];
    assert whole[..5] == destination[..5] == "/dev/" && whole == "/dev/" + dir;
    assert destination == "/dev/" + dir + name + slashes;
  }

  /** A device node has its mapping private, with its other options as they were; any other
      mount keeps all of its options. */
  ghost predicate OptionsMean(m: Mount, options: seq<string>) {
    if exists name :: DeviceNode(m.destination, name) && "nvidia" <= name then
      && "rprivate" in options && NonPropagation(options) == NonPropagation(m.options)
      && ("rprivate" in m.options ==> options == m.options)
      && ("rprivate" !in m.options ==> forall o | o in options && Propagation(o) :: o == "rprivate")
    else options == m.options
  }

  lemma RewrittenOptions(host: Host, t: Target, m: Mount)
    ensures OptionsMean(m, Rewritten(host, t, m).options)
  {
    NvidiaIff(m.destination);
    RprivateCompetes();
    EnsuredMeans(m.options, "rprivate");
  }

  /** What a dumped mount becomes: the same place and kind, with the source and the options
      it is to have. */
  ghost predicate MountMeans(host: Host, t: Target, m: Mount, r: Mount) {
    && r.destination == m.destination && r.kind == m.kind
    && SourceMeans(host, t, m, r.source) && OptionsMean(m, r.options)
  }

  lemma RewrittenMeans(host: Host, t: Target, ms: seq<Mount>)
    ensures forall i | 0 <= i < |ms| :: MountMeans(host, t, ms[i], RewrittenAll(host, t, ms)[i])
  {
    forall i | 0 <= i < |ms| ensures MountMeans(host, t, ms[i], RewrittenAll(host, t, ms)[i]) {
      RewrittenAt(host, t, ms, i);
      RewrittenSource(host, t, ms[i]);
      RewrittenOptions(host, t, ms[i]);
    }
  }

  // ----- the loop over the mounts -----

  /** The first n elements are rewritten, the others are as they were. */
  ghost predicate Turned(host: Host, t: Target, was: seq<Mount>, now: seq<Mount>, n: nat) {
    && n <= |was| == |now|
    && (forall k | 0 <= k < n :: now[k] == Rewritten(host, t, was[k]))
    && (forall k | n <= k < |was| :: now[k] == was[k])
  }

  lemma TurnNext(host: Host, t: Target, was: seq<Mount>, now: seq<Mount>, n: nat)
    requires Turned(host, t, was, now, n) && n < |was|
    ensures now[n] == was[n] && Turned(host, t, was, now[n := Rewritten(host, t, was[n])], n + 1)
  {
  }

  lemma TurnedAll(host: Host, t: Target, was: seq<Mount>, now: seq<Mount>)
    requires Turned(host, t, was, now, |was|)
    ensures now == RewrittenAll(host, t, was)
  {
    forall k | 0 <= k < |was| ensures now[k] == RewrittenAll(host, t, was)[k] { RewrittenAt(host, t, was, k); }
  }

  /** One turn of the loop: the element at i is rewritten where it stands. */
  method RewriteAt(host: Host, t: Target, a: array<Mount>, i: nat, ghost was: seq<Mount>)
    requires Named(host) && i < a.Length == |was| && Turned(host, t, was, a[..], i)
    modifies a
    ensures Turned(host, t, was, a[..], i + 1)
  {
    TurnNext(host, t, was, a[..], i);
    ghost var before := a[..];
    var m := a[i];
    var r := RewriteMount(host, t, m);
    a[i] := r;
    assert a[..] == before[i := r];
  }

  /** The mount loop of RewriteSpec edits the list in place. */
  method RewriteMounts(host: Host, t: Target, a: array<Mount>)
    requires Named(host)
    modifies a
    ensures a[..] == RewrittenAll(host, t, old(a[..]))
    ensures forall i | 0 <= i < a.Length :: MountMeans(host, t, old(a[i]), a[i])
  {
    ghost var was := a[..];
    for i := 0 to a.Length
      invariant Turned(host, t, was, a[..], i)
    {
      RewriteAt(host, t, a, i, was);
    }
    TurnedAll(host, t, was, a[..]);
    RewrittenMeans(host, t, was);
    assert forall i | 0 <= i < a.Length :: a[i] == a[..][i];
  }

  // ----- the appended mounts -----

  const EXTRA_OPTIONS := ["rbind", "rprivate", "ro", "nosuid", "nodev"]

  /** Host-backed, present, and not under /proc: the extra mounts that must be covered. */
  predicate Wanted(host: Host, hostRoot: string, em: ExtraMount) {
    !("/proc/" <= em.containerPath) && em.hostPath != "" && host.exists_(PathJoin(hostRoot, em.hostPath))
  }

  function ExtraOf(em: ExtraMount): Mount { Mount(em.containerPath, "bind", em.hostPath, EXTRA_OPTIONS) }

  predicate Has(ms: seq<Mount>, destination: string) {
    exists i | 0 <= i < |ms| :: ms[i].destination == destination
  }

  method AppendExtras(host: Host, t: Target, ms: seq<Mount>) returns (r: seq<Mount>)
    ensures Covered(host, t, ms, r)
  {
    r := ms;
    var inSpec := set i | 0 <= i < |ms| :: ms[i].destination;
    var n := |t.extraMounts|;
    for i := 0 to n
      invariant ms <= r && forall d :: d in inSpec <==> Has(r, d)
      invariant CoveredSoFar(host, t, ms, r, i)
    {
      var em := t.extraMounts[i];
      ghost var before := r;
      if em.containerPath !in inSpec && Wanted(host, t.hostRoot, em) {
        r := r + [ExtraOf(em)];
        inSpec := inSpec + {em.containerPath};
        assert r[|r| - 1].destination == em.containerPath;
        assert forall j | 0 <= j < |before| :: r[j] == before[j];
        assert forall d :: d in inSpec <==> Has(r, d) by {
          forall d ensures Has(r, d) <==> Has(before, d) || d == em.containerPath {
            if Has(before, d) {
              var j :| 0 <= j < |before| && before[j].destination == d;
              assert r[j].destination == d;
            }
          }
        }
        CoveredStep(host, t, ms, before, i, r);
      }
    }
  }

  /** After the first n extra mounts: what was appended is wanted, new and distinct, and every
      wanted one has its destination. */
  ghost predicate CoveredSoFar(host: Host, t: Target, ms: seq<Mount>, r: seq<Mount>, n: nat) {
    && ms <= r && n <= |t.extraMounts|
    && (forall i | |ms| <= i < |r| :: FromExtra(host, t, r[i]))
    && (forall i, j | |ms| <= i < |r| && 0 <= j < i :: r[i].destination != r[j].destination)
    && (forall i | 0 <= i < n && Wanted(host, t.hostRoot, t.extraMounts[i]) :: Has(r, t.extraMounts[i].containerPath))
  }

  ghost predicate FromExtra(host: Host, t: Target, m: Mount) {
    exists i :: 0 <= i < |t.extraMounts| && Wanted(host, t.hostRoot, t.extraMounts[i]) && m == ExtraOf(t.extraMounts[i])
  }

  lemma CoveredStep(host: Host, t: Target, ms: seq<Mount>, r: seq<Mount>, n: nat, next: seq<Mount>)
    requires n < |t.extraMounts| && CoveredSoFar(host, t, ms, r, n)
    requires Wanted(host, t.hostRoot, t.extraMounts[n]) && !Has(r, t.extraMounts[n].containerPath)
    requires next == r + [ExtraOf(t.extraMounts[n])]
    ensures CoveredSoFar(host, t, ms, next, n + 1)
  {
    var last := |r|;
    assert FromExtra(host, t, next[last]);
    forall i | 0 <= i <= n && Wanted(host, t.hostRoot, t.extraMounts[i])
      ensures Has(next, t.extraMounts[i].containerPath)
    {
      if i < n {
        var j :| 0 <= j < |r| && r[j].destination == t.extraMounts[i].containerPath;
        assert next[j] == r[j];
      } else {
        assert next[last].destination == t.extraMounts[i].containerPath;
      }
    }
  }

  /** Coverage: the given mounts come first, unchanged; what follows is wanted, with new and
      pairwise distinct destinations; and every wanted extra mount has its destination. */
  ghost predicate Covered(host: Host, t: Target, ms: seq<Mount>, r: seq<Mount>) {
    CoveredSoFar(host, t, ms, r, |t.extraMounts|)
  }

  // ----- no source of the old pod is left -----

  /** Where the slashes of a pod's volume prefix are. */
  lemma PodShape(uid: string)
    requires '/' !in uid
    ensures var p := PodPrefix(uid);
            && |p| == |uid| + 23 && p[|p| - 1] == '/' && p[..22] == PODS && p[22..|uid| + 22] == uid
            && forall j | 0 <= j < |p| :: p[j] == '/' <==> j in {0, 4, 8, 16, 21, |p| - 1}
  {
    var p := PodPrefix(uid);
    forall j | 0 <= j < |p| ensures p[j] == if j < 22 then PODS[j] else if j < |p| - 1 then uid[j - 22] else '/' {}
    forall j | 22 <= j < |p| - 1 ensures p[j] != '/' { assert uid[j - 22] in uid; }
    PodSlashes();
  }

  lemma PodSlashes()
    ensures |PODS| == 22 && forall j | 0 <= j < 22 :: PODS[j] == '/' <==> j in {0, 4, 8, 16, 21}
    ensures PODS[1] != 's' && PODS[5] != 's' && PODS[9] != 's' && PODS[17] != 's'
  {
  }

  /** A string starts with the prefix of at most one pod. */
  lemma SamePod(a: string, b: string, s: string)
    requires '/' !in a && '/' !in b && PodPrefix(a) <= s && PodPrefix(b) <= s
    ensures a == b
  {
    PodShape(a);
    PodShape(b);
    var p, q := PodPrefix(a), PodPrefix(b);
    assert s[|p| - 1] == '/' && s[|q| - 1] == '/';
    assert |p| == |q|;
    assert p == s[..|p|] == q;
    assert a == p[22..|a| + 22];
  }

  /** The sandbox replacement cannot make a source start with a pod's prefix: a changed byte
      lies behind fixed text that the prefix has no room for. */
  lemma PrefixNotMade(s: string, id: string, uid: string)
    requires SandboxId(id) && '/' !in uid && PodPrefix(uid) <= ReplaceIds(s, id)
    ensures PodPrefix(uid) <= s
  {
    var r, p := ReplaceIds(s, id), PodPrefix(uid);
    ReplaceKeepsLength(s, id);
    PodShape(uid);
    PodSlashes();
    forall i | 0 <= i < |p| ensures s[i] == p[i] {
      assert r[i] == p[i];
      if s[i] != r[i] {
        var q := ChangedInId(s, id, i);
        HeadShape(r[q..q + 11]);
        assert r[q..q + 11][0] == r[q] == p[q] && r[q..q + 11][1] == r[q + 1] == p[q + 1]
               && r[q..q + 11][10] == r[q + 10] == p[q + 10];
        HeadInPrefix(uid, q);
      }
    }
  }

  /** The fixed text in front of an id does not fit inside a pod's prefix. */
  lemma HeadInPrefix(uid: string, q: nat)
    requires '/' !in uid && q + 11 < |PodPrefix(uid)| && PodPrefix(uid)[q] == '/' && PodPrefix(uid)[q + 1] == 's'
    ensures PodPrefix(uid)[q + 10] != '/'
  {
    var p := PodPrefix(uid);
    PodShape(uid);
    PodSlashes();
    assert forall j | 0 <= j < 22 :: p[j] == p[..22][j];
  }

  lemma ResolvedKeepsPrefix(host: Host, src: string, uid: string)
    requires '/' !in uid && PodPrefix(uid) <= src
    ensures PodPrefix(uid) <= ResolvedDir(host, src)
  {
    PodShape(uid);
    LastIndexIs(src, '/', |PodPrefix(uid)| - 1);
    assert PodPrefix(uid) <= DirPart(src);
  }

  ghost predicate CleanTarget(t: Target) {
    && t.oldPodUID != "" && t.podUID != "" && t.oldPodUID != t.podUID && '/' !in t.oldPodUID && '/' !in t.podUID
    && (t.sandboxID == "" || SandboxId(t.sandboxID))
    && forall d | d in t.keeperMounts :: !(PodPrefix(t.oldPodUID) <= t.keeperMounts[d])
  }

  /** With distinct UIDs and a keeper outside the old pod, no rewritten mount still reads
      from the old pod's volumes. */
  lemma NoOldPodSource(host: Host, t: Target, m: Mount)
    requires CleanTarget(t)
    ensures !(PodPrefix(t.oldPodUID) <= Rewritten(host, t, m).source)
  {
    LocatedApart(host, t, m.source);
  }

  lemma LocatedApart(host: Host, t: Target, source: string)
    requires CleanTarget(t)
    ensures !(PodPrefix(t.oldPodUID) <= Located(host, t, source))
  {
    var a := Remapped(t, source);
    if PodPrefix(t.oldPodUID) <= a { SamePod(t.oldPodUID, t.podUID, a); }
    var b := if t.sandboxID != "" then ReplaceIds(a, t.sandboxID) else a;
    if t.sandboxID != "" && PodPrefix(t.oldPodUID) <= b { PrefixNotMade(a, t.sandboxID, t.oldPodUID); }
    if PodPrefix(t.podUID) <= b {
      ResolvedKeepsPrefix(host, b, t.podUID);
      if PodPrefix(t.oldPodUID) <= ResolvedDir(host, b) { SamePod(t.oldPodUID, t.podUID, ResolvedDir(host, b)); }
    }
  }

  // ----- the whole spec -----

  datatype NamespaceType = Network | IPC | UTS | PID | MountNS | OtherNS(name: string)
  datatype Namespace = Namespace(kind: NamespaceType, path: string)

  function Decimal(n: nat): string {
    if n < 10 then [('0' as int + n) as char] else Decimal(n / 10) + [('0' as int + n % 10) as char]
  }

  function NsPath(pid: nat, kind: string): string { "/proc/" + Decimal(pid) + "/ns/" + kind }

  /** The shared namespaces are the sandbox's, the pid and mount namespaces are fresh, and
      any other stays as it was. */
  predicate Joined(pid: nat, a: Namespace, b: Namespace) {
    && b.kind == a.kind
    && match a.kind
       case Network => b.path == NsPath(pid, "net")
       case IPC => b.path == NsPath(pid, "ipc")
       case UTS => b.path == NsPath(pid, "uts")
       case PID => b.path == ""
       case MountNS => b.path == ""
       case OtherNS(_) => b.path == a.path
  }

  method RewriteNamespaces(ns: seq<Namespace>, pid: nat) returns (r: seq<Namespace>)
    ensures |r| == |ns| && forall i | 0 <= i < |ns| :: Joined(pid, ns[i], r[i])
  {
    r := [];
    for i := 0 to |ns|
      invariant |r| == i && forall j | 0 <= j < i :: Joined(pid, ns[j], r[j])
    {
      var n := ns[i];
      match n.kind {
        case Network => n := n.(path := NsPath(pid, "net"));
        case IPC => n := n.(path := NsPath(pid, "ipc"));
        case UTS => n := n.(path := NsPath(pid, "uts"));
        case PID => n := n.(path := "");
        case MountNS => n := n.(path := "");
        case OtherNS(_) =>
      }
      r := r + [n];
    }
  }

  /** The parts of the OCI spec the rewrite looks at or changes. */
  datatype Labels = Labels(apparmor: string, selinux: string)
  datatype Spec = Spec(linux: bool, namespaces: seq<Namespace>, cgroupsPath: string, allDevices: bool,
                       labels: Option<Labels>, root: Option<string>, mounts: seq<Mount>)

  /** RewriteSpec; dump is None where spec.dump cannot be read or parsed. */
  method RewriteSpec(host: Host, t: Target, dump: Option<Spec>, writes: bool) returns (r: Option<Spec>)
    requires Named(host)
    ensures r.Some? ==> dump.Some? && dump.value.linux && writes
    ensures r.Some? ==> |r.value.namespaces| == |dump.value.namespaces|
    ensures r.Some? ==>
              forall i | 0 <= i < |dump.value.namespaces| ::
                Joined(t.pausePID, dump.value.namespaces[i], r.value.namespaces[i])
    ensures r.Some? ==> r.value.allDevices && (r.value.labels.Some? <==> dump.value.labels.Some?)
    ensures r.Some? && r.value.labels.Some? ==> r.value.labels.value.apparmor == r.value.labels.value.selinux == ""
    ensures r.Some? ==> r.value.cgroupsPath == (if t.cgroupsPath != "" then t.cgroupsPath else dump.value.cgroupsPath)
    ensures r.Some? ==> r.value.root == (if t.rootfsPath != "" then Some(t.rootfsPath) else dump.value.root)
    ensures r.Some? ==> Covered(host, t, RewrittenAll(host, t, dump.value.mounts), r.value.mounts)
    ensures r.Some? ==> |dump.value.mounts| <= |r.value.mounts|
    ensures r.Some? ==> forall i | 0 <= i < |dump.value.mounts| ::
                MountMeans(host, t, dump.value.mounts[i], r.value.mounts[i])
    ensures dump.Some? && dump.value.linux && writes ==> r.Some?
  {
    if dump.None? || !dump.value.linux { return None; }
    var spec := dump.value;
    var ns := RewriteNamespaces(spec.namespaces, t.pausePID);
    var n := |spec.mounts|;
    var a := new Mount[n](i requires 0 <= i < n => spec.mounts[i]);
    assert a[..] == spec.mounts;
    RewriteMounts(host, t, a);
    ghost var all := a[..];
    assert forall i | 0 <= i < n :: MountMeans(host, t, spec.mounts[i], all[i]);
    var mounts := AppendExtras(host, t, a[..]);
    assert all <= mounts;
    if !writes { return None; }
    r := Some(Spec(true, ns, if t.cgroupsPath != "" then t.cgroupsPath else spec.cgroupsPath, true,
                   if spec.labels.Some? then Some(Labels("", "")) else None,
                   if t.rootfsPath != "" then Some(t.rootfsPath) else spec.root, mounts));
  }

  /** What the rewritten list is, in terms of the dumped one: the dumped mounts come first, in
      order, with their destinations and types; none of them reads from the old pod; what
      follows has new, pairwise distinct destinations; and every wanted extra mount is there. */
  lemma MountsMean(host: Host, t: Target, dumped: seq<Mount>, r: seq<Mount>, i: nat)
    requires Covered(host, t, RewrittenAll(host, t, dumped), r) && i < |r|
    ensures |dumped| <= |r|
    ensures i < |dumped| ==> MountMeans(host, t, dumped[i], r[i])
    ensures i < |dumped| && CleanTarget(t) ==> !(PodPrefix(t.oldPodUID) <= r[i].source)
    ensures i >= |dumped| ==> r[i].kind == "bind" && r[i].options == ["rbind", "rprivate", "ro", "nosuid", "nodev"]
    ensures i >= |dumped| ==>
              exists k :: 0 <= k < |t.extraMounts| && t.extraMounts[k] == ExtraMount(r[i].destination, r[i].source)
    ensures i >= |dumped| ==> r[i].source != "" && host.exists_(PathJoin(t.hostRoot, r[i].source))
    ensures i >= |dumped| ==> !("/proc/" <= r[i].destination)
    ensures i >= |dumped| ==> forall j | 0 <= j < |r| && j != i :: r[j].destination != r[i].destination
    ensures forall k | 0 <= k < |t.extraMounts| ::
              var em := t.extraMounts[k];
              em.hostPath != "" && !("/proc/" <= em.containerPath)
              && host.exists_(PathJoin(t.hostRoot, em.hostPath)) ==>
                Has(r, em.containerPath)
  {
    if i < |dumped| {
      RewrittenAt(host, t, dumped, i);
      assert r[i] == RewrittenAll(host, t, dumped)[i];
      if CleanTarget(t) { NoOldPodSource(host, t, dumped[i]); }
      RewrittenMeans(host, t, dumped);
    } else {
      assert FromExtra(host, t, r[i]);
    }
  }

  /** The whole list: no mount of it reads from the old pod. */
  ghost predicate LeavesOldPod(t: Target, r: seq<Mount>) {
    forall i | 0 <= i < |r| :: !(PodPrefix(t.oldPodUID) <= r[i].source)
  }

  /** The appended mounts are taken as the dump recorded them: none that will be appended
      comes from the old pod. */
  ghost predicate ExtrasApart(host: Host, t: Target, dumped: seq<Mount>) {
    forall k | 0 <= k < |t.extraMounts| && Wanted(host, t.hostRoot, t.extraMounts[k])
               && !Has(dumped, t.extraMounts[k].containerPath) ::
      !(PodPrefix(t.oldPodUID) <= t.extraMounts[k].hostPath)
  }

  lemma SameDestinations(host: Host, t: Target, dumped: seq<Mount>, d: string)
    ensures Has(RewrittenAll(host, t, dumped), d) <==> Has(dumped, d)
  {
    var all := RewrittenAll(host, t, dumped);
    forall i | 0 <= i < |dumped| ensures all[i].destination == dumped[i].destination {
      RewrittenAt(host, t, dumped, i);
    }
    if i :| 0 <= i < |dumped| && dumped[i].destination == d { assert all[i].destination == d; }
  }

  lemma NotAmong(ms: seq<Mount>, r: seq<Mount>, i: nat)
    requires ms <= r && i < |r| && !Has(ms, r[i].destination)
    ensures |ms| <= i
  {
  }

  lemma NewAmong(ms: seq<Mount>, r: seq<Mount>, i: nat)
    requires ms <= r && |ms| <= i < |r| && forall j | 0 <= j < i :: r[i].destination != r[j].destination
    ensures !Has(ms, r[i].destination)
  {
  }

  /** A wanted extra mount with a new destination is appended with its own source. */
  lemma AppendedSource(host: Host, t: Target, dumped: seq<Mount>, r: seq<Mount>, k: nat) returns (i: nat)
    requires Covered(host, t, RewrittenAll(host, t, dumped), r) && DistinctExtras(t.extraMounts)
    requires k < |t.extraMounts| && Wanted(host, t.hostRoot, t.extraMounts[k])
    requires !Has(dumped, t.extraMounts[k].containerPath)
    ensures i < |r| && r[i] == ExtraOf(t.extraMounts[k])
  {
    var all, em := RewrittenAll(host, t, dumped), t.extraMounts[k];
    SameDestinations(host, t, dumped, em.containerPath);
    assert Has(r, em.containerPath);
    i :| 0 <= i < |r| && r[i].destination == em.containerPath;
    NotAmong(all, r, i);
    assert FromExtra(host, t, r[i]);
    var extras := t.extraMounts;
    var j :| 0 <= j < |extras| && Wanted(host, t.hostRoot, extras[j]) && r[i] == ExtraOf(extras[j]);
    assert j == k;
  }

  /** An appended mount is a wanted extra mount with a new destination. */
  lemma AppendedFrom(host: Host, t: Target, dumped: seq<Mount>, r: seq<Mount>, i: nat) returns (k: nat)
    requires Covered(host, t, RewrittenAll(host, t, dumped), r) && |dumped| <= i < |r|
    ensures k < |t.extraMounts| && Wanted(host, t.hostRoot, t.extraMounts[k]) && r[i] == ExtraOf(t.extraMounts[k])
    ensures !Has(dumped, t.extraMounts[k].containerPath)
  {
    var all := RewrittenAll(host, t, dumped);
    assert FromExtra(host, t, r[i]);
    k :| 0 <= k < |t.extraMounts| && Wanted(host, t.hostRoot, t.extraMounts[k]) && r[i] == ExtraOf(t.extraMounts[k]);
    SameDestinations(host, t, dumped, r[i].destination);
    NewAmong(all, r, i);
  }

  /** The exact condition under which the restored container reads nothing of the old pod:
      the dumped mounts never do, so it lies with the extra ones, whose sources nothing
      rewrites. It can be checked on the dump's own records before the rewrite. */
  lemma LeavesOldPodIff(host: Host, t: Target, dumped: seq<Mount>, r: seq<Mount>)
    requires CleanTarget(t) && DistinctExtras(t.extraMounts)
    requires Covered(host, t, RewrittenAll(host, t, dumped), r)
    ensures LeavesOldPod(t, r) <==> ExtrasApart(host, t, dumped)
  {
    if LeavesOldPod(t, r) {
      forall k | 0 <= k < |t.extraMounts| && Wanted(host, t.hostRoot, t.extraMounts[k])
                 && !Has(dumped, t.extraMounts[k].containerPath)
        ensures !(PodPrefix(t.oldPodUID) <= t.extraMounts[k].hostPath)
      {
        var i := AppendedSource(host, t, dumped, r, k);
      }
    }
    if ExtrasApart(host, t, dumped) {
      forall i | 0 <= i < |r| ensures !(PodPrefix(t.oldPodUID) <= r[i].source) {
        if i < |dumped| {
          MountsMean(host, t, dumped, r, i);
        } else {
          var k := AppendedFrom(host, t, dumped, r, i);
        }
      }
    }
  }

  /** For any two pods, any place outside /proc and anything of the old pod that still exists,
      recorded by the dump at that place: the rewritten spec binds the old pod's volume. */
  method BindsOldPod(host: Host, old_: string, new_: string, place: string, rest: string)
    returns (t: Target, r: seq<Mount>)
    requires old_ != "" && new_ != "" && old_ != new_ && '/' !in old_ && '/' !in new_
    requires !("/proc/" <= place) && place != ROOT_PLACE && host.exists_(PathJoin("", PodPrefix(old_) + rest))
    ensures CleanTarget(t) && t.oldPodUID == old_ && t.podUID == new_
    ensures Covered(host, t, [], r) && |r| == 1
    ensures r[0].destination == place && r[0].source == PodPrefix(old_) + rest
  {
    var x := MountRecord("ext4", "/dev/root", PodPrefix(old_) + rest, place);
    var extra := ScanMounts([x]);
    assert IsFirst([x], 0);
    assert ExtraFrom([x][0]) in extra;
    t := Target(0, new_, old_, "", "", "", map[], extra, "");
    r := AppendExtras(host, t, []);
    OnlyExtra(host, t, extra, x, r);
  }

  lemma OnlyExtra(host: Host, t: Target, extra: seq<ExtraMount>, x: MountRecord, r: seq<Mount>)
    requires t.extraMounts == extra && Covered(host, t, [], r) && DistinctExtras(extra)
    requires ExtraFrom(x) in extra && forall k | 0 <= k < |extra| :: FirstRecorded([x], extra[k])
    requires Wanted(host, t.hostRoot, ExtraFrom(x))
    ensures |r| == 1 && r[0] == ExtraOf(ExtraFrom(x))
  {
    forall k | 0 <= k < |extra| ensures extra[k] == ExtraFrom(x) { assert FirstRecorded([x], extra[k]); }
    var k :| 0 <= k < |extra| && extra[k] == ExtraFrom(x);
    assert Wanted(host, t.hostRoot, t.extraMounts[k]);
    assert Has(r, ExtraFrom(x).containerPath);
    forall i | 0 <= i < |r| ensures r[i] == ExtraOf(ExtraFrom(x)) { assert FromExtra(host, t, r[i]); }
    assert r[|r| - 1] == r[0];
  }
}
