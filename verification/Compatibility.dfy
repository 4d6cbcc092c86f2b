/** Names and tuples that travel as text: the node's environment tuple
    (api/v1alpha1/compatibility.go, snapshotbuild_types.go) and the pod UID inside a CRI
    container name (internal/agent/checkpoint_controller.go, internal/restore/bundle.go). */
module Compatibility {
  import opened Paths
  import opened Manifests

  datatype Key = Key(gpu: string, driver: string, criu: string, imageDigest: string)

  const EMPTY := Key("", "", "", "")

  function Render(k: Key): string {
    "gpu=" + k.gpu + ";driver=" + k.driver + ";criu=" + k.criu
  }

  /** strings.Cut: what comes before and after the first c. */
  function Cut(s: string, c: char): (r: Option<(string, string)>)
    ensures r.Some? <==> c in s
    ensures r.Some? ==> s == r.value.0 + [c] + r.value.1 && c !in r.value.0
  {
    if s == "" then None
    else if s[0] == c then Some(("", s[1..]))
    else match Cut(s[1..], c)
         case None => None
         case Some(p) => Some(([s[0]] + p.0, p.1))
  }

  predicate IsSpace(c: char) {
    c in {'\t', '\n', '\U{B}', '\U{C}', '\r', ' ', '\U{85}', '\U{A0}', '\U{1680}',
          '\U{2028}', '\U{2029}', '\U{202F}', '\U{205F}', '\U{3000}'}
    || '\U{2000}' <= c <= '\U{200A}'
  }

  function TrimSpace(s: string): string {
    if s != "" && IsSpace(s[0]) then TrimSpace(s[1..])
    else if s != "" && IsSpace(s[|s| - 1]) then TrimSpace(s[..|s| - 1])
    else s
  }

  ghost predicate AllSpace(s: string) { forall i | 0 <= i < |s| :: IsSpace(s[i]) }

  lemma AllSpaceBoth(a: string, b: string)
    requires AllSpace(a) && AllSpace(b)
    ensures AllSpace(a + b)
  {
  }

  /** t is s without spaces at its ends, and has none there. */
  ghost predicate Trimmed(s: string, front: string, t: string, back: string) {
    && s == front + t + back && AllSpace(front) && AllSpace(back)
    && (t == "" || (!IsSpace(t[0]) && !IsSpace(t[|t| - 1])))
  }

  /** Only spaces go, from both ends, and none is left at an end. */
  lemma {:induction false} TrimSpaceMeans(s: string) returns (front: string, back: string)
    ensures Trimmed(s, front, TrimSpace(s), back)
  {
    front, back := "", "";
    if s != "" && IsSpace(s[0]) {
      front, back := TrimSpaceMeans(s[1..]);
      TrimmedMore([s[0]], s[1..], front, TrimSpace(s[1..]), back, "");
      front, back := [s[0]] + front, back + "";
      assert s == [s[0]] + s[1..] + "";
    } else if s != "" && IsSpace(s[|s| - 1]) {
      var n := |s| - 1;
      front, back := TrimSpaceMeans(s[..n]);
      TrimmedMore("", s[..n], front, TrimSpace(s[..n]), back, [s[n]]);
      front, back := "" + front, back + [s[n]];
      assert s == "" + s[..n] + [s[n]];
    }
  }

  lemma TrimmedMore(a: string, s: string, front: string, t: string, back: string, z: string)
    requires Trimmed(s, front, t, back) && AllSpace(a) && AllSpace(z)
    ensures Trimmed(a + s + z, a + front, t, back + z)
  {
    AllSpaceBoth(a, front);
    AllSpaceBoth(back, z);
    Padded(a, front, t, back, z);
  }

  lemma Padded(a: string, f: string, t: string, b: string, z: string)
    ensures a + (f + t + b) + z == (a + f) + t + (b + z)
  {
  }

  /** One field of the annotation; unknown keys are ignored, a later field wins. */
  function WithField(k: Key, field: string): Key {
    match Cut(field, '=')
    case None => k
    case Some((key, value)) =>
      var name := TrimSpace(key);
      if name == "gpu" then k.(gpu := value)
      else if name == "driver" then k.(driver := value)
      else if name == "criu" then k.(criu := value)
      else k
  }

  function WithFields(fields: seq<string>): Key {
    if fields == [] then EMPTY else WithField(WithFields(fields[..|fields| - 1]), fields[|fields| - 1])
  }

  function Parsed(s: string): Key { WithFields(Split(s, ';')) }

  /** field reads "name=value", where spaces around the name do not count. */
  predicate Gives(field: string, name: string, value: string) {
    Names(field, name) && Cut(field, '=').value.1 == value
  }

  predicate Names(field: string, name: string) {
    Cut(field, '=').Some? && TrimSpace(Cut(field, '=').value.0) == name
  }

  /** The last of the fields with that name gives the value; it is empty if none has it. */
  ghost predicate LastGives(fields: seq<string>, name: string, value: string) {
    || (value == "" && forall i | 0 <= i < |fields| :: !Names(fields[i], name))
    || exists i :: 0 <= i < |fields| && GivesLast(fields, i, name, value)
  }

  ghost predicate GivesLast(fields: seq<string>, i: nat, name: string, value: string)
    requires i < |fields|
  {
    Gives(fields[i], name, value) && forall j | i < j < |fields| :: !Names(fields[j], name)
  }

  /** One field more: it takes over if it has the name, and else changes nothing. */
  lemma LastGivesMore(fields: seq<string>, name: string, was: string, now: string)
    requires fields != [] && LastGives(fields[..|fields| - 1], name, was)
    requires var field := fields[|fields| - 1]; if Names(field, name) then Gives(field, name, now) else now == was
    ensures LastGives(fields, name, now)
  {
    var n := |fields| - 1;
    var before := fields[..n];
    if Names(fields[n], name) {
      assert GivesLast(fields, n, name, now);
    } else if i :| 0 <= i < |before| && GivesLast(before, i, name, was) {
      assert GivesLast(fields, i, name, now) by {
        forall j | i < j < |fields| ensures !Names(fields[j], name) { assert j < n ==> before[j] == fields[j]; }
      }
    } else {
      forall i | 0 <= i < |fields| ensures !Names(fields[i], name) { assert i < n ==> before[i] == fields[i]; }
    }
  }

  lemma {:induction false} FieldsLast(fields: seq<string>)
    ensures LastGives(fields, "gpu", WithFields(fields).gpu)
    ensures LastGives(fields, "driver", WithFields(fields).driver)
    ensures LastGives(fields, "criu", WithFields(fields).criu)
    ensures WithFields(fields).imageDigest == ""
  {
    if fields != [] {
      var was := WithFields(fields[..|fields| - 1]);
      FieldsLast(fields[..|fields| - 1]);
      LastGivesMore(fields, "gpu", was.gpu, WithFields(fields).gpu);
      LastGivesMore(fields, "driver", was.driver, WithFields(fields).driver);
      LastGivesMore(fields, "criu", was.criu, WithFields(fields).criu);
    }
  }

  /** ParseCompatibility: for each field of the tuple the last entry of the text with its name
      counts; entries without "=" and unknown names do not. It inverts Render on plain keys. */
  method ParseCompatibility(s: string) returns (k: Key)
    ensures k == Parsed(s) && k.imageDigest == ""
    ensures LastGives(Split(s, ';'), "gpu", k.gpu)
    ensures LastGives(Split(s, ';'), "driver", k.driver)
    ensures LastGives(Split(s, ';'), "criu", k.criu)
    ensures forall was | Plain(was) && s == Render(was) :: k == was.(imageDigest := "")
  {
    k := EMPTY;
    var fields := Split(s, ';');
    for i := 0 to |fields|
      invariant k == WithFields(fields[..i])
    {
      assert fields[..i + 1][..i] == fields[..i];
      k := WithField(k, fields[i]);
    }
    assert fields[..|fields|] == fields;
    FieldsLast(fields);
    forall was | Plain(was) && s == Render(was) ensures k == was.(imageDigest := "") { RoundTripIff(was); }
  }

  ghost predicate Plain(k: Key) {
    ';' !in k.gpu && ';' !in k.driver && ';' !in k.criu
  }

  lemma {:induction false} FieldsPlain(fields: seq<string>)
    requires Without(fields, ';')
    ensures Plain(WithFields(fields))
  {
    if fields != [] { FieldsPlain(fields[..|fields| - 1]); }
  }

  lemma CutAt(key: string, value: string)
    requires '=' !in key
    ensures Cut(key + "=" + value, '=') == Some((key, value))
  {
    var s := key + "=" + value;
    assert s[|key|] == '=' && s[..|key|] == key && s[|key| + 1..] == value;
    var p := Cut(s, '=').value;
    assert s[|p.0|] == '=' && s[..|p.0|] == p.0 && s[|p.0| + 1..] == p.1;
    assert |p.0| == |key|;
  }

  function Fields(k: Key): seq<string> { ["gpu=" + k.gpu, "driver=" + k.driver, "criu=" + k.criu] }

  lemma RenderJoins(a: string, b: string, c: string)
    ensures Join([a, b, c], ';') == a + [';'] + b + [';'] + c
  {
    assert [a, b, c][1..] == [b, c] && [b, c][1..] == [c];
    assert Join([b, c], ';') == b + [';'] + c;
    assert a + [';'] + (b + [';'] + c) == a + [';'] + b + [';'] + c;
  }

  lemma RenderSplits(k: Key)
    requires Plain(k)
    ensures Split(Render(k), ';') == Fields(k)
  {
    RenderJoins("gpu=" + k.gpu, "driver=" + k.driver, "criu=" + k.criu);
    assert Render(k) == "gpu=" + k.gpu + [';'] + ("driver=" + k.driver) + [';'] + ("criu=" + k.criu);
    SplitJoin(Fields(k), ';');
  }

  lemma TrimmedNames()
    ensures TrimSpace("gpu") == "gpu" && TrimSpace("driver") == "driver" && TrimSpace("criu") == "criu"
  {
  }

  lemma GpuField(k: Key, value: string)
    ensures WithField(k, "gpu=" + value) == k.(gpu := value)
  {
    TrimmedNames();
    assert "gpu=" + value == "gpu" + "=" + value;
    CutAt("gpu", value);
  }

  lemma DriverField(k: Key, value: string)
    ensures WithField(k, "driver=" + value) == k.(driver := value)
  {
    TrimmedNames();
    assert "driver=" + value == "driver" + "=" + value;
    CutAt("driver", value);
  }

  lemma CriuField(k: Key, value: string)
    ensures WithField(k, "criu=" + value) == k.(criu := value)
  {
    TrimmedNames();
    assert "criu=" + value == "criu" + "=" + value;
    CutAt("criu", value);
  }

  lemma ThreeFields(a: string, b: string, c: string)
    ensures WithFields([a, b, c]) == WithField(WithField(WithField(EMPTY, a), b), c)
  {
    assert WithFields([a]) == WithField(EMPTY, a) by { assert [a][..0] == []; }
    assert WithFields([a, b]) == WithField(WithFields([a]), b) by { assert [a, b][..1] == [a]; }
    assert [a, b, c][..2] == [a, b];
  }

  lemma FieldsParse(k: Key)
    ensures WithFields(Fields(k)) == k.(imageDigest := "")
  {
    var gpu, driver, criu := "gpu=" + k.gpu, "driver=" + k.driver, "criu=" + k.criu;
    ThreeFields(gpu, driver, criu);
    GpuField(EMPTY, k.gpu);
    DriverField(EMPTY.(gpu := k.gpu), k.driver);
    CriuField(EMPTY.(gpu := k.gpu, driver := k.driver), k.criu);
  }

  /** The annotation gives back exactly the node-side fields, if and only if none of them
      holds the separator. */
  lemma RoundTripIff(k: Key)
    ensures Parsed(Render(k)) == k.(imageDigest := "") <==> Plain(k)
  {
    SplitWithout(Render(k), ';');
    FieldsPlain(Split(Render(k), ';'));
    if Plain(k) {
      RenderSplits(k);
      FieldsParse(k);
    }
  }

  /** Rendering is injective on the node-side fields. */
  lemma RenderInjective(a: Key, b: Key)
    requires Plain(a) && Plain(b) && Render(a) == Render(b)
    ensures a.(imageDigest := "") == b.(imageDigest := "")
  {
    RoundTripIff(a);
    RoundTripIff(b);
  }

  // ----- when renderings and hashes separate -----

  const DRIVER := ";driver="
  const CRIU := ";criu="

  ghost predicate OccursAt(s: string, sep: string, i: nat) { i + |sep| <= |s| && s[i..i + |sep|] == sep }

  ghost predicate Occurs(s: string, sep: string) { exists i :: OccursAt(s, sep, i) }

  /** The rendering can be taken apart in one way only: no field holds what reads as the start
      of a later one. */
  ghost predicate Separable(k: Key) {
    !Occurs(k.gpu, DRIVER) && !Occurs(k.driver, DRIVER) && !Occurs(k.driver, CRIU) && !Occurs(k.criu, CRIU)
  }

  predicate SameNode(a: Key, b: Key) { a.(imageDigest := "") == b.(imageDigest := "") }

  /** A separator of the format: a semicolon, and none after it. */
  predicate Marks(sep: string) {
    sep != "" && sep[0] == ';' && forall i | 0 < i < |sep| :: sep[i] != ';'
  }

  lemma InnerPlain(s: string, sep: string, i: nat)
    requires Marks(sep) && OccursAt(s, sep, i)
    ensures forall j | i < j < i + |sep| :: s[j] != ';'
  {
    forall j | i < j < i + |sep| ensures s[j] != ';' { assert s[j] == s[i..i + |sep|][j - i]; }
  }

  /** An occurrence that starts before a semicolon ends before it. */
  lemma OccursBefore(front: string, back: string, sep: string, i: nat)
    requires Marks(sep) && OccursAt(front + [';'] + back, sep, i) && i < |front|
    ensures OccursAt(front, sep, i)
  {
    var s := front + [';'] + back;
    InnerPlain(s, sep, i);
    assert s[|front|] == ';';
    assert i + |sep| <= |front|;
    assert s[i..i + |sep|] == front[i..i + |sep|];
  }

  /** Two ways to write one text around the same separator, the first front the longer one. */
  lemma LongerFront(a: string, x: string, b: string, y: string, sep: string)
    requires Marks(sep) && a + sep + x == b + sep + y && |b| < |a|
    ensures Occurs(a, sep)
    ensures |b| + |sep| <= |a| && a == b + sep + a[|b| + |sep|..] && y == a[|b| + |sep|..] + sep + x
  {
    var s := a + sep + x;
    assert s == b + sep + y;
    assert s[|b|..|b| + |sep|] == sep;
    assert s == a + [';'] + (sep[1..] + x);
    OccursBefore(a, sep[1..] + x, sep, |b|);
    assert a[..|b|] == s[..|b|] == b;
    assert y == s[|b| + |sep|..];
  }

  /** Where the last two fields are what they read as, so is a pair that reads the same. */
  lemma TailSeparates(driver: string, criu: string, y: string, z: string)
    requires driver + CRIU + criu == y + CRIU + z && !Occurs(driver, CRIU) && !Occurs(criu, CRIU)
    ensures driver == y && criu == z
  {
    var s := driver + CRIU + criu;
    if |y| < |driver| {
      LongerFront(driver, criu, y, z, CRIU);
    } else if |y| > |driver| {
      LongerFront(y, z, driver, criu, CRIU);
      var rest := y[|driver| + |CRIU|..];
      assert criu == rest + CRIU + z;
      assert OccursAt(criu, CRIU, |rest|);
    } else {
      assert s[..|driver|] == driver && s[..|y|] == y;
      assert s[|driver| + |CRIU|..] == criu && s[|y| + |CRIU|..] == z;
    }
  }

  lemma OccursThere(a: string, sep: string, b: string)
    ensures OccursAt(a + sep + b, sep, |a|)
  {
  }

  /** Two different separators of the format do not overlap. */
  lemma NoOverlap(s: string, a: nat, b: nat)
    requires OccursAt(s, DRIVER, a) && OccursAt(s, CRIU, b) && b <= a
    ensures b + |CRIU| <= a
  {
    InnerPlain(s, CRIU, b);
    assert s[a..a + |DRIVER|][0] == s[a] && s[a..a + |DRIVER|][1] == s[a + 1];
    assert s[b..b + |CRIU|][1] == s[b + 1];
    assert DRIVER[0] == ';' && DRIVER[1] == 'd' && CRIU[1] == 'c';
  }

  /** A driver field that starts later than the gpu field ends, with a criu field after it. */
  lemma LaterDriver(driver: string, criu: string, rest: string, y: string, z: string)
    requires driver + CRIU + criu == rest + DRIVER + (y + CRIU + z)
    ensures Occurs(driver, DRIVER) || Occurs(criu, CRIU)
  {
    var s := driver + CRIU + criu;
    OccursThere(driver, CRIU, criu);
    OccursThere(rest, DRIVER, y + CRIU + z);
    if |rest| < |driver| {
      EarlyDriver(driver, criu, |rest|);
    } else {
      NoOverlap(s, |rest|, |driver|);
      assert s == (rest + DRIVER + y) + CRIU + z;
      OccursBehind(driver + CRIU, criu, rest + DRIVER + y, z, CRIU);
    }
  }

  lemma EarlyDriver(driver: string, criu: string, i: nat)
    requires OccursAt(driver + CRIU + criu, DRIVER, i) && i < |driver|
    ensures Occurs(driver, DRIVER)
  {
    assert driver + CRIU + criu == driver + [';'] + (CRIU[1..] + criu);
    OccursBefore(driver, CRIU[1..] + criu, DRIVER, i);
  }

  /** An occurrence that starts behind a front lies in what follows it. */
  lemma OccursBehind(front: string, back: string, before: string, after: string, sep: string)
    requires front + back == before + sep + after && |front| <= |before|
    ensures Occurs(back, sep)
  {
    var s, i := front + back, |before| - |front|;
    assert s[|front|..] == back && s[|before|..|before| + |sep|] == sep;
    assert back[i..i + |sep|] == s[|before|..|before| + |sep|];
    assert OccursAt(back, sep, i);
  }

  lemma RenderParts(k: Key)
    ensures Render(k) == "gpu=" + (k.gpu + DRIVER + (k.driver + CRIU + k.criu))
  {
  }

  lemma SeparableSeparates(a: Key, b: Key)
    requires Separable(a) && Render(b) == Render(a)
    ensures SameNode(a, b)
  {
    RenderParts(a);
    RenderParts(b);
    var x, y := a.driver + CRIU + a.criu, b.driver + CRIU + b.criu;
    assert a.gpu + DRIVER + x == Render(a)[4..] == b.gpu + DRIVER + y;
    if |b.gpu| < |a.gpu| {
      LongerFront(a.gpu, x, b.gpu, y, DRIVER);
    } else if |b.gpu| > |a.gpu| {
      LongerFront(b.gpu, y, a.gpu, x, DRIVER);
      LaterDriver(a.driver, a.criu, b.gpu[|a.gpu| + |DRIVER|..], b.driver, b.criu);
    } else {
      var s := a.gpu + DRIVER + x;
      assert s[..|a.gpu|] == a.gpu && s[..|b.gpu|] == b.gpu;
      assert s[|a.gpu| + |DRIVER|..] == x && s[|b.gpu| + |DRIVER|..] == y;
      TailSeparates(a.driver, a.criu, b.driver, b.criu);
    }
  }

  /** A text with a separator in it, cut there. */
  lemma CutAround(s: string, sep: string, i: nat)
    requires OccursAt(s, sep, i)
    ensures s == s[..i] + sep + s[i + |sep|..]
  {
  }

  /** In each of the four cases there is another key that renders the same. */
  lemma SplitsGpu(a: Key, i: nat) returns (b: Key)
    requires OccursAt(a.gpu, DRIVER, i)
    ensures Render(b) == Render(a) && b.gpu != a.gpu
  {
    CutAround(a.gpu, DRIVER, i);
    b := Key(a.gpu[..i], a.gpu[i + |DRIVER|..] + DRIVER + a.driver, a.criu, "");
    RenderParts(a);
    RenderParts(b);
  }

  lemma JoinsGpu(a: Key, i: nat) returns (b: Key)
    requires OccursAt(a.driver, DRIVER, i)
    ensures Render(b) == Render(a) && b.gpu != a.gpu
  {
    CutAround(a.driver, DRIVER, i);
    b := Key(a.gpu + DRIVER + a.driver[..i], a.driver[i + |DRIVER|..], a.criu, "");
    RenderParts(a);
    RenderParts(b);
  }

  lemma SplitsDriver(a: Key, i: nat) returns (b: Key)
    requires OccursAt(a.driver, CRIU, i)
    ensures Render(b) == Render(a) && b.driver != a.driver
  {
    CutAround(a.driver, CRIU, i);
    b := Key(a.gpu, a.driver[..i], a.driver[i + |CRIU|..] + CRIU + a.criu, "");
    RenderParts(a);
    RenderParts(b);
  }

  lemma JoinsDriver(a: Key, i: nat) returns (b: Key)
    requires OccursAt(a.criu, CRIU, i)
    ensures Render(b) == Render(a) && b.driver != a.driver
  {
    CutAround(a.criu, CRIU, i);
    b := Key(a.gpu, a.driver + CRIU + a.criu[..i], a.criu[i + |CRIU|..], "");
    RenderParts(a);
    RenderParts(b);
  }

  lemma SeparateFails(a: Key) returns (b: Key)
    requires !Separable(a)
    ensures Render(b) == Render(a) && !SameNode(a, b)
  {
    if i: nat :| OccursAt(a.gpu, DRIVER, i) {
      b := SplitsGpu(a, i);
    } else if i: nat :| OccursAt(a.driver, DRIVER, i) {
      b := JoinsGpu(a, i);
    } else if i: nat :| OccursAt(a.driver, CRIU, i) {
      b := SplitsDriver(a, i);
    } else {
      var i: nat :| OccursAt(a.criu, CRIU, i);
      b := JoinsDriver(a, i);
    }
  }

  /** The exact condition under which a rendering belongs to one tuple only. */
  lemma RenderSeparatesIff(a: Key)
    ensures (forall b :: Render(b) == Render(a) ==> SameNode(a, b)) <==> Separable(a)
  {
    if Separable(a) {
      forall b | Render(b) == Render(a) ensures SameNode(a, b) { SeparableSeparates(a, b); }
    } else {
      var b := SeparateFails(a);
    }
  }

  /** NodeHash, over the digest the node agent and the manager share; empty for a key with
      nothing on the node side. */
  function NodeHash(digest: string -> string, k: Option<Key>): string {
    if k.None? || (k.value.gpu == "" && k.value.driver == "" && k.value.criu == "") then ""
    else digest(Render(k.value))
  }

  /** A digest like sha256, taken to be injective. */
  ghost predicate Injective(digest: string -> string) {
    (forall a, b :: digest(a) == digest(b) ==> a == b) && forall a :: digest(a) != ""
  }

  /** The exact condition under which the hash of a key belongs to one tuple only. */
  lemma HashSeparatesIff(digest: string -> string, a: Key)
    requires Injective(digest)
    ensures (forall b :: NodeHash(digest, Some(b)) == NodeHash(digest, Some(a)) ==> SameNode(a, b)) <==> Separable(a)
  {
    RenderSeparatesIff(a);
    if !Separable(a) {
      var b := SeparateFails(a);
      EmptySeparable();
      if SameNode(b, EMPTY) { SeparableSeparates(EMPTY, a); }
      assert NodeHash(digest, Some(b)) == NodeHash(digest, Some(a));
    }
  }

  lemma EmptySeparable()
    ensures Separable(EMPTY)
  {
  }

  datatype Mismatch = Mismatch(what: string, got: string, want: string)

  function Differs(what: string, want: string, got: string): Option<Mismatch> {
    if want != "" && got != "" && want != got then Some(Mismatch(what, got, want)) else None
  }

  /** Matches: the first field the build recorded and the node contradicts. */
  function Matches(build: Key, node: Key): (r: Option<Mismatch>)
    ensures r.None? <==>
            Agreeing(build.gpu, node.gpu) && Agreeing(build.driver, node.driver) && Agreeing(build.criu, node.criu)
    ensures r.Some? ==> r.value.want != "" && r.value.got != "" && r.value.want != r.value.got
  {
    var gpu := Differs("GPU model", build.gpu, node.gpu);
    if gpu.Some? then gpu else
    var driver := Differs("NVIDIA driver", build.driver, node.driver);
    if driver.Some? then driver else Differs("CRIU version", build.criu, node.criu)
  }

  predicate Agreeing(want: string, got: string) { want == "" || got == "" || want == got }

  /** The annotation's last entry for a field that the build recorded says something else. */
  ghost predicate Contradicts(build: Key, annotation: string) {
    || OtherThan(build.gpu, annotation, "gpu")
    || OtherThan(build.driver, annotation, "driver")
    || OtherThan(build.criu, annotation, "criu")
  }

  ghost predicate OtherThan(want: string, annotation: string, name: string) {
    want != "" && exists got: string :: got != "" && got != want && LastGives(Split(annotation, ';'), name, got)
  }

  lemma LastGivesOne(fields: seq<string>, name: string, a: string, b: string)
    requires LastGives(fields, name, a) && LastGives(fields, name, b)
    ensures a == b
  {
    if i :| 0 <= i < |fields| && GivesLast(fields, i, name, a) {
      if j :| 0 <= j < |fields| && GivesLast(fields, j, name, b) { assert i == j; }
    }
  }

  lemma OtherThanIff(want: string, annotation: string, name: string, got: string)
    requires LastGives(Split(annotation, ';'), name, got)
    ensures OtherThan(want, annotation, name) <==> !Agreeing(want, got)
  {
    if other: string :| other != "" && other != want && LastGives(Split(annotation, ';'), name, other) {
      LastGivesOne(Split(annotation, ';'), name, got, other);
    }
  }

  /** The comparison with the parsed annotation is one with its text. */
  lemma ContradictsIff(build: Key, annotation: string)
    ensures Matches(build, Parsed(annotation)).Some? <==> Contradicts(build, annotation)
  {
    FieldsLast(Split(annotation, ';'));
    OtherThanIff(build.gpu, annotation, "gpu", Parsed(annotation).gpu);
    OtherThanIff(build.driver, annotation, "driver", Parsed(annotation).driver);
    OtherThanIff(build.criu, annotation, "criu", Parsed(annotation).criu);
  }

  /** A node whose hash is that of a build with such fields can restore the build, whatever
      else it reports and whatever its own fields hold. */
  lemma HashImpliesMatch(digest: string -> string, build: Key, node: Key)
    requires Injective(digest) && Separable(build)
    requires NodeHash(digest, Some(build)) == NodeHash(digest, Some(node))
    ensures Matches(build, node) == None
    ensures Plain(node) ==> Matches(build, Parsed(Render(node))) == None
  {
    HashSeparatesIff(digest, build);
    assert SameNode(build, node);
    if Plain(node) { RoundTripIff(node); }
  }

  /** Without that, a build and a node that contradict each other may share a hash: whatever
      the four texts are, as long as the node has a gpu. */
  lemma HashCollides(digest: string -> string, gpu: string, a: string, b: string, criu: string)
    requires gpu != ""
    ensures var build, node := Key(gpu + DRIVER + a, b, criu, ""), Key(gpu, a + DRIVER + b, criu, "");
            NodeHash(digest, Some(build)) == NodeHash(digest, Some(node)) && Matches(build, node).Some?
  {
    var build, node := Key(gpu + DRIVER + a, b, criu, ""), Key(gpu, a + DRIVER + b, criu, "");
    RenderParts(build);
    RenderParts(node);
    assert Render(build) == Render(node);
  }

  // ----- the pod UID in a container name -----

  /** checkpointMeta: containerd's name for the container. */
  function CheckpointName(container: string, pod: string, namespace: string, uid: string): string {
    container + "_" + pod + "_" + namespace + "_" + uid + "_0"
  }

  /** The parts of config.dump the restore looks at. */
  datatype ConfigDump = ConfigDump(sandboxUID: Option<string>, name: Option<string>)

  function OldPodUID(d: Option<ConfigDump>): string {
    if d.None? then ""
    else if d.value.sandboxUID.Some? && d.value.sandboxUID.value != "" then d.value.sandboxUID.value
    else if d.value.name.None? then ""
    else
      var parts := Split(d.value.name.value, '_');
      if |parts| >= 5 then parts[|parts| - 2] else ""
  }

  lemma SplitLength(a: string, b: string, c: char)
    ensures |Split(a + [c] + b, c)| == |Split(a, c)| + |Split(b, c)|
  {
    SplitConcat(a, b, c);
  }

  /** OldPodUID gives back the UID that was encoded, whatever the other parts hold, if and
      only if the UID itself has no underscore. */
  lemma PodUIDRoundTripIff(container: string, pod: string, namespace: string, uid: string)
    ensures OldPodUID(Some(ConfigDump(None, Some(CheckpointName(container, pod, namespace, uid))))) == uid <==>
            '_' !in uid
  {
    var front := container + "_" + pod + "_" + namespace;
    var name := CheckpointName(container, pod, namespace, uid);
    assert name == front + ['_'] + (uid + ['_'] + "0");
    SplitConcat(front, uid + ['_'] + "0", '_');
    SplitConcat(uid, "0", '_');
    SplitPlain("0", '_');
    SplitLength(container + "_" + pod, namespace, '_');
    SplitLength(container, pod, '_');
    SplitWithout(uid, '_');
    if '_' !in uid { SplitPlain(uid, '_'); }
  }
}
