/**
Versions in the order semver.org gives them (pkg/version/version.go): reading
one, telling a release from a build made after it, and comparing two.
*/
module Version {
  import opened Options
  import opened Text

  datatype Semver = Semver(major: int, minor: int, patch: int, prerelease: string)

  predicate IsHex(c: char) {
    IsDigit(c) || 'a' <= c <= 'f'
  }

  // The suffix git describe adds: commits since the tag and the hash, and what
  // may follow them.
  ghost predicate CommitSuffix(p: string, base: string, count: string, hash: string, tail: string) {
    && p == base + count + "-g" + hash + tail
    && (base == "" || base[|base| - 1] == '-')
    && AllDigits(count) && |hash| >= 4 && (forall k :: 0 <= k < |hash| ==> IsHex(hash[k]))
    && (tail == "" || tail == "-" || tail == "dirty" || tail == "-dirty")
  }

  ghost predicate Described(p: string) {
    p == "dirty" || exists base, count, hash, tail :: CommitSuffix(p, base, count, hash, tail)
  }

  // What is left of a described suffix when its end is cut off.
  ghost predicate Commit(rest: string, base: string, count: string, hash: string) {
    && rest == base + count + "-" + ("g" + hash)
    && (base == "" || base[|base| - 1] == '-')
    && AllDigits(count) && |hash| >= 4 && (forall k :: 0 <= k < |hash| ==> IsHex(hash[k]))
  }

  lemma SplitStep(before: string, rest: string)
    requires '-' !in before
    ensures Split(before + "-" + rest, '-') == [before] + Split(rest, '-')
    ensures Split(before, '-') == [before]
  {
    var s := before + "-" + rest;
    IndexOfFirst(before, rest, '-');
    assert s[..|before|] == before && s[|before| + 1..] == rest;
  }

  lemma Regroup(before: string, b: string, c: string, d: string)
    ensures before + "-" + (b + c + "-" + d) == (before + "-" + b) + c + "-" + d
  {
  }

  lemma SplitOff(s: string) returns (before: string, after: string)
    requires |Split(s, '-')| >= 2
    ensures s == before + "-" + after && Split(s, '-') == [before] + Split(after, '-')
  {
    before, after := Cut(s, '-').0, Cut(s, '-').1.value;
  }

  lemma {:induction false} SplitEnds(s: string) returns (base: string)
    requires |Split(s, '-')| >= 2
    ensures base == "" || base[|base| - 1] == '-'
    ensures var parts := Split(s, '-'); s == base + parts[|parts| - 2] + "-" + parts[|parts| - 1]
    decreases |s|
  {
    var before, after := SplitOff(s);
    var rest := Split(after, '-');
    if |rest| == 1 {
      base := "";
      JoinSplit(after, '-');
      assert Split(s, '-') == [before, after];
    } else {
      var b := SplitEnds(after);
      base := before + "-" + b;
      Regroup(before, b, rest[|rest| - 2], rest[|rest| - 1]);
    }
  }

  lemma FirstDash(base: string) returns (before: string, b: string)
    requires base != "" && base[|base| - 1] == '-'
    ensures '-' !in before && base == before + "-" + b && (b == "" || b[|b| - 1] == '-')
  {
    var i := Index(base, '-');
    before, b := base[..i], base[i + 1..];
  }

  lemma LastTwo(count: string, last: string)
    requires '-' !in count && '-' !in last
    ensures Split(count + "-" + last, '-') == [count, last]
  {
    SplitStep(count, last);
    SplitStep(last, "");
  }

  lemma {:induction false} EndsSplit(base: string, count: string, last: string)
    requires base == "" || base[|base| - 1] == '-'
    requires '-' !in count && '-' !in last
    ensures var parts := Split(base + count + "-" + last, '-');
      |parts| >= 2 && parts[|parts| - 2] == count && parts[|parts| - 1] == last
    decreases |base|
  {
    if base == "" {
      assert base + count + "-" + last == count + "-" + last;
      LastTwo(count, last);
    } else {
      var before, b := FirstDash(base);
      EndsSplit(b, count, last);
      Regroup(before, b, count, last);
      SplitStep(before, b + count + "-" + last);
    }
  }

  lemma TailOff(s: string, tail: string)
    requires s != "" && s[|s| - 1] != '-' && s[|s| - 1] != 'y'
    requires tail == "" || tail == "-" || tail == "dirty" || tail == "-dirty"
    ensures TrimSuffix(TrimSuffix(s + tail, "dirty"), "-") == s
  {
    var dash := if tail == "-" || tail == "-dirty" then "-" else "";
    var p := s + tail;
    var rest := s + dash;
    if tail == "dirty" || tail == "-dirty" {
      assert p == rest + "dirty";
      SuffixOff(rest, "dirty");
    } else {
      assert p == rest;
      if HasSuffix(p, "dirty") { LastOf(p, "dirty"); }
    }
    assert TrimSuffix(p, "dirty") == rest;
    if dash == "-" {
      SuffixOff(s, "-");
    } else if HasSuffix(s, "-") {
      LastOf(s, "-");
    }
  }

  /** A suffix with `dirty` and a dash taken from its end is a commit when the suffix is described. */
  lemma EndOff(p: string, base: string, count: string, hash: string, tail: string)
    requires CommitSuffix(p, base, count, hash, tail)
    ensures Commit(TrimSuffix(TrimSuffix(p, "dirty"), "-"), base, count, hash)
  {
    var front := base + count + "-";
    var rest := front + ("g" + hash);
    assert IsHex(hash[|hash| - 1]);
    assert rest[|rest| - 1] == hash[|hash| - 1];
    assert p == rest + tail;
    TailOff(rest, tail);
  }

  lemma TailIsShort(p: string, rest: string, most: string)
    requires (p == rest || p == rest + "dirty") && (rest == most || rest == most + "-")
    ensures |most| <= |p| && p[..|most|] == most
    ensures var tail := p[|most|..]; tail == "" || tail == "-" || tail == "dirty" || tail == "-dirty"
  {
    if p == rest + "dirty" {
      assert p[|most|..] == rest[|most|..] + "dirty";
    }
  }

  lemma EndOn(p: string, base: string, count: string, hash: string)
    requires Commit(TrimSuffix(TrimSuffix(p, "dirty"), "-"), base, count, hash)
    ensures Described(p)
  {
    var rest := TrimSuffix(p, "dirty");
    var most := TrimSuffix(rest, "-");
    var tail := p[|most|..];
    assert p == rest || p == rest + "dirty";
    assert rest == most || rest == most + "-";
    TailIsShort(p, rest, most);
    assert p == base + count + "-g" + hash + tail;
    assert CommitSuffix(p, base, count, hash, tail);
  }

  lemma CommitParts(rest: string, base: string, count: string, hash: string)
    requires Commit(rest, base, count, hash)
    ensures var parts := Split(rest, '-');
      |parts| >= 2 && parts[|parts| - 2] == count && parts[|parts| - 1] == "g" + hash
  {
    assert '-' !in count by {
      assert forall k :: 0 <= k < |count| ==> IsDigit(count[k]);
    }
    assert '-' !in "g" + hash by {
      assert forall k :: 0 <= k < |hash| ==> IsHex(hash[k]);
    }
    EndsSplit(base, count, "g" + hash);
  }

  ghost predicate IsCommit(rest: string) {
    exists base, count, hash :: Commit(rest, base, count, hash)
  }

  lemma WithoutItsEnd(p: string)
    requires p != "dirty"
    ensures Described(p) <==> IsCommit(TrimSuffix(TrimSuffix(p, "dirty"), "-"))
  {
    if base, count, hash, tail :| CommitSuffix(p, base, count, hash, tail) {
      EndOff(p, base, count, hash, tail);
    }
    if base, count, hash :| Commit(TrimSuffix(TrimSuffix(p, "dirty"), "-"), base, count, hash) {
      EndOn(p, base, count, hash);
    }
  }

  // A commit is told by its last two parts.
  lemma ByItsParts(rest: string, count: string, last: string, hash: string)
    requires var parts := Split(rest, '-'); |parts| >= 2 && parts[|parts| - 2] == count && parts[|parts| - 1] == last
    requires hash == TrimPrefix(last, "g")
    ensures IsCommit(rest) <==>
        AllDigits(count) && |hash| >= 4 && |hash| != |last| && forall k :: 0 <= k < |hash| ==> IsHex(hash[k])
  {
    if base, c, h :| Commit(rest, base, c, h) {
      CommitParts(rest, base, c, h);
      assert ("g" + h)[1..] == h;
    }
    if AllDigits(count) && |hash| >= 4 && |hash| != |last| && forall k :: 0 <= k < |hash| ==> IsHex(hash[k]) {
      var base := SplitEnds(rest);
      assert last == "g" + hash;
      assert Commit(rest, base, count, hash);
    }
  }

  lemma OnePartIsNone(rest: string)
    requires |Split(rest, '-')| < 2
    ensures !IsCommit(rest)
  {
    if base, c, h :| Commit(rest, base, c, h) {
      CommitParts(rest, base, c, h);
    }
  }

  method CountAndHash(count: string, hash: string) returns (commit: bool)
    ensures commit <==>
      (forall k :: 0 <= k < |count| ==> IsDigit(count[k])) && (forall k :: 0 <= k < |hash| ==> IsHex(hash[k]))
  {
    for i := 0 to |count|
      invariant forall k :: 0 <= k < i ==> IsDigit(count[k])
    {
      if count[i] < '0' || count[i] > '9' {
        return false;
      }
    }
    for i := 0 to |hash|
      invariant forall k :: 0 <= k < i ==> IsHex(hash[k])
    {
      if (hash[i] < '0' || hash[i] > '9') && (hash[i] < 'a' || hash[i] > 'f') {
        return false;
      }
    }
    return true;
  }

  lemma OnlyDirty(p: string)
    ensures p == "dirty" <==> HasSuffix(p, "dirty") && TrimSuffix(p, "dirty") == ""
  {
  }

  method EndsInCommit(rest: string) returns (commit: bool)
    ensures commit <==> IsCommit(rest)
  {
    var parts := Split(rest, '-');
    if |parts| < 2 {
      OnePartIsNone(rest);
      return false;
    }
    var count, last := parts[|parts| - 2], parts[|parts| - 1];
    var hash := TrimPrefix(last, "g");
    ByItsParts(rest, count, last, hash);
    if count == "" || |hash| < 4 || |hash| == |last| {
      return false;
    }
    commit := CountAndHash(count, hash);
  }

  /** Exactly the suffixes that git describe adds, and no others, are taken for a commit. */
  method DescribesCommit(p: string) returns (described: bool)
    ensures described <==> Described(p)
  {
    OnlyDirty(p);
    var rest := TrimSuffix(p, "dirty");
    if HasSuffix(p, "dirty") && rest == "" {
      return true;
    }
    WithoutItsEnd(p);
    described := EndsInCommit(TrimSuffix(rest, "-"));
  }

  /**
   A changed working tree at a tag is told from a version exactly when the tag
   is a commit's already; `rc.1-dirty` is not.
   */
  lemma DirtyPrerelease(p: string)
    ensures Described(p + "-dirty") <==> IsCommit(p)
  {
    var s := p + "-dirty";
    assert s == (p + "-") + "dirty";
    SuffixOff(p + "-", "dirty");
    SuffixOff(p, "-");
    WithoutItsEnd(s);
  }

  function Dotted(a: string, b: string, c: string): string {
    a + "." + (b + "." + c)
  }

  function Core(v: Semver): string
    requires v.major >= 0 && v.minor >= 0 && v.patch >= 0
  {
    Dotted(Itoa(v.major), Itoa(v.minor), Itoa(v.patch))
  }

  predicate InRange(n: int) {
    0 <= n <= MAX_INT
  }

  ghost predicate Proper(v: Semver) {
    InRange(v.major) && InRange(v.minor) && InRange(v.patch) && !Described(v.prerelease)
  }

  function Shown(v: Semver): string
    requires v.major >= 0 && v.minor >= 0 && v.patch >= 0
  {
    if v.prerelease == "" then Core(v) else Core(v) + "-" + v.prerelease
  }

  function Body(s: string): string {
    Cut(TrimPrefix(TrimSpace(s), "v"), '+').0
  }

  /** What a version is: numbers as they are written, and a pre-release that is not a commit's. */
  ghost predicate IsVersion(s: string, v: Semver) {
    Proper(v) && Body(s) == Shown(v)
  }

  lemma CutAtPlus(text: string, s: string, build: Option<string>)
    requires '+' !in s && text == s + if build.Some? then "+" + build.value else ""
    ensures Cut(text, '+').0 == s
  {
    if build.Some? {
      IndexOfFirst(s, build.value, '+');
      assert text == s + "+" + build.value && text[..|s|] == s;
    }
  }

  lemma PrefixOff(s: string)
    requires s != "" && s[0] != 'v'
    ensures TrimPrefix("v" + s, "v") == s && TrimPrefix(s, "v") == s
  {
    assert ("v" + s)[1..] == s;
  }

  // The text of a version without what is around it.
  lemma BodyIs(s: string, before: string, text: string, after: string)
    requires Blank(before) && Blank(after) && text != "" && IsDigit(text[0]) && !IsSpace(text[|text| - 1])
    requires s == before + text + after || s == before + ("v" + text) + after
    ensures Body(s) == Cut(text, '+').0
  {
    PrefixOff(text);
    if s == before + text + after {
      Trims(before, text, after);
    } else {
      Trims(before, "v" + text, after);
    }
  }

  /** Space around a version, a v before it and a build after it change nothing. */
  lemma ReadsAs(s: string, before: string, text: string, build: Option<string>, after: string, v: Semver)
    requires Proper(v) && '+' !in v.prerelease && Blank(before) && Blank(after)
    requires text == Shown(v) + if build.Some? then "+" + build.value else ""
    requires s == before + text + after || s == before + ("v" + text) + after
    requires !IsSpace(text[|text| - 1])
    ensures IsVersion(s, v)
  {
    ShownStarts(v);
    ShownHasNoPlus(v);
    CutAtPlus(text, Shown(v), build);
    assert text[0] == Shown(v)[0];
    BodyIs(s, before, text, after);
  }

  lemma ShownStarts(v: Semver)
    requires Proper(v)
    ensures Shown(v) != "" && IsDigit(Shown(v)[0])
  {
    assert Shown(v)[0] == Itoa(v.major)[0];
  }

  lemma ShownHasNoPlus(v: Semver)
    requires Proper(v) && '+' !in v.prerelease
    ensures '+' !in Shown(v)
  {
    CoreHasNo(v, '+');
  }

  lemma OneTwoThree()
    ensures Shown(Semver(1, 2, 3, "")) == "1.2.3" && Proper(Semver(1, 2, 3, ""))
  {
    Nothing();
    assert Itoa(1) == "1" && Itoa(2) == "2" && Itoa(3) == "3";
  }

  /** v1.2.3+build is version 1.2.3, and so is 1.2.3 with space around it. */
  lemma BuildsAndSpace(s: string)
    requires s == "v1.2.3+build" || s == " 1.2.3 "
    ensures IsVersion(s, Semver(1, 2, 3, ""))
  {
    OneTwoThree();
    if s == " 1.2.3 " {
      ReadsAs(s, " ", "1.2.3", None, " ", Semver(1, 2, 3, ""));
    } else {
      ReadsAs(s, "", "1.2.3+build", Some("build"), "", Semver(1, 2, 3, ""));
    }
  }

  lemma DottedSplits(a: string, b: string, c: string)
    requires '.' !in a && '.' !in b && '.' !in c
    ensures Split(Dotted(a, b, c), '.') == [a, b, c]
  {
    var parts := [a, b, c];
    assert parts[1..] == [b, c] && parts[1..][1..] == [c];
    assert Join([b, c], '.') == b + "." + Join([c], '.');
    SplitJoin(parts, '.');
  }

  lemma NotInDotted(a: string, b: string, c: string, sep: char)
    requires sep != '.' && sep !in a && sep !in b && sep !in c
    ensures sep !in Dotted(a, b, c)
  {
  }

  lemma CoreHasNo(v: Semver, sep: char)
    requires InRange(v.major) && InRange(v.minor) && InRange(v.patch) && !IsDigit(sep)
    ensures sep !in Itoa(v.major) && sep !in Itoa(v.minor) && sep !in Itoa(v.patch)
    ensures sep != '.' ==> sep !in Core(v)
  {
    ItoaHasNo(v.major, sep);
    ItoaHasNo(v.minor, sep);
    ItoaHasNo(v.patch, sep);
    if sep != '.' {
      NotInDotted(Itoa(v.major), Itoa(v.minor), Itoa(v.patch), sep);
    }
  }

  lemma CoreSplits(v: Semver)
    requires InRange(v.major) && InRange(v.minor) && InRange(v.patch)
    ensures Split(Core(v), '.') == [Itoa(v.major), Itoa(v.minor), Itoa(v.patch)]
  {
    CoreHasNo(v, '.');
    DottedSplits(Itoa(v.major), Itoa(v.minor), Itoa(v.patch));
  }

  lemma ShownSplits(v: Semver)
    requires InRange(v.major) && InRange(v.minor) && InRange(v.patch)
    ensures Cut(Shown(v), '-') == (Core(v), if v.prerelease == "" then None else Some(v.prerelease))
  {
    CoreHasNo(v, '-');
    var s := Shown(v);
    if v.prerelease != "" {
      IndexOfFirst(Core(v), v.prerelease, '-');
      assert s[..|Core(v)|] == Core(v) && s[|Core(v)| + 1..] == v.prerelease;
    }
  }

  method Number(p: string) returns (n: Option<int>)
    ensures forall m :: n == Some(m) <==> InRange(m) && p == Itoa(m)
  {
    n := Atoi(p);
    forall m | InRange(m) && p == Itoa(m) ensures n == Some(m) {
      AtoiItoa(m);
    }
    if n.None? || n.value < 0 || p != Itoa(n.value) {
      return None;
    }
  }

  lemma SameCore(v: Semver, w: Semver)
    requires InRange(v.major) && InRange(v.minor) && InRange(v.patch)
    requires InRange(w.major) && InRange(w.minor) && InRange(w.patch) && Core(v) == Core(w)
    ensures v.major == w.major && v.minor == w.minor && v.patch == w.patch
  {
    CoreSplits(v);
    CoreSplits(w);
  }

  /** Exactly the versions are read, each in one way. */
  method Parse(s: string) returns (r: Option<Semver>)
    ensures forall v :: r == Some(v) <==> IsVersion(s, v)
  {
    r := ParseBody(Body(s));
  }

  method ParseBody(body: string) returns (r: Option<Semver>)
    ensures forall v :: r == Some(v) <==> Proper(v) && body == Shown(v)
  {
    var (core, after) := Cut(body, '-');
    forall v | Proper(v) && body == Shown(v)
      ensures core == Core(v) && after == if v.prerelease == "" then None else Some(v.prerelease)
    {
      ShownSplits(v);
    }
    var prerelease := "";
    if after.Some? {
      prerelease := after.value;
      var described := DescribesCommit(prerelease);
      if prerelease == "" || described {
        return None;
      }
    }
    var numbers := Numbers(core);
    if numbers.None? {
      return None;
    }
    var (major, minor, patch) := numbers.value;
    var version := Semver(major, minor, patch, prerelease);
    Nothing();
    forall v | Proper(v) && body == Shown(v) ensures v == version {
      SameCore(v, version);
    }
    r := Some(version);
  }

  lemma Nothing()
    ensures !Described("")
  {
    forall base, count, hash, tail ensures !CommitSuffix("", base, count, hash, tail) {
      SuffixIsLong(base, count, hash, tail);
    }
  }

  lemma SuffixIsLong(base: string, count: string, hash: string, tail: string)
    ensures base + count + "-g" + hash + tail != ""
  {
    assert |base + count + "-g" + hash + tail| >= 2;
  }

  // The three numbers of a version, or none.
  method Numbers(core: string) returns (r: Option<(int, int, int)>)
    ensures r.Some? ==> var (a, b, c) := r.value;
      InRange(a) && InRange(b) && InRange(c) && core == Dotted(Itoa(a), Itoa(b), Itoa(c))
    ensures r.None? ==> forall v: Semver :: InRange(v.major) && InRange(v.minor) && InRange(v.patch) ==> core != Core(v)
  {
    var parts := Split(core, '.');
    JoinSplit(core, '.');
    forall v: Semver | InRange(v.major) && InRange(v.minor) && InRange(v.patch) && core == Core(v)
      ensures parts == [Itoa(v.major), Itoa(v.minor), Itoa(v.patch)]
    {
      CoreSplits(v);
    }
    if |parts| != 3 {
      return None;
    }
    var nums := NumbersOf(parts);
    if nums.None? {
      return None;
    }
    JoinThree(parts);
    r := Some((nums.value[0], nums.value[1], nums.value[2]));
  }

  method NumbersOf(parts: seq<string>) returns (r: Option<seq<int>>)
    ensures r.Some? ==> |r.value| == |parts| && forall k :: 0 <= k < |parts| ==>
        InRange(r.value[k]) && parts[k] == Itoa(r.value[k])
    ensures r.None? ==> exists k :: 0 <= k < |parts| && forall n :: InRange(n) ==> parts[k] != Itoa(n)
  {
    var nums: seq<int> := [];
    for i := 0 to |parts|
      invariant |nums| == i && forall k :: 0 <= k < i ==> InRange(nums[k]) && parts[k] == Itoa(nums[k])
    {
      var n := Number(parts[i]);
      if n.None? {
        return None;
      }
      nums := nums + [n.value];
    }
    r := Some(nums);
  }

  lemma JoinThree(parts: seq<string>)
    requires |parts| == 3
    ensures Join(parts, '.') == Dotted(parts[0], parts[1], parts[2])
  {
    assert parts[1..] == [parts[1], parts[2]] && parts[1..][1..] == [parts[2]];
    assert Join([parts[1], parts[2]], '.') == parts[1] + "." + Join([parts[2]], '.');
  }

  // What a string is in front of which nothing is cut off, and behind which only what follows a plus.
  lemma BodyOfShown(v: Semver, build: string)
    requires Proper(v) && '+' !in v.prerelease && (build == "" || !IsSpace(build[|build| - 1]))
    ensures Body(Shown(v) + "+" + build) == Shown(v)
  {
    var s := Shown(v) + "+" + build;
    CoreHasNo(v, '+');
    assert '+' !in Shown(v);
    var digits := Itoa(v.major);
    assert IsDigit(digits[0]) && s[0] == digits[0];
    assert s[|s| - 1] == if build == "" then '+' else build[|build| - 1];
    assert TrimSpace(s) == s && TrimPrefix(s, "v") == s;
    IndexOfFirst(Shown(v), build, '+');
    assert s[..|Shown(v)|] == Shown(v);
  }

  lemma Untagged(v: Semver)
    requires Proper(v) && '+' !in v.prerelease && v.prerelease != "" && !IsSpace(v.prerelease[|v.prerelease| - 1])
    ensures Body(Shown(v)) == Shown(v)
  {
    var s := Shown(v);
    CoreHasNo(v, '+');
    assert '+' !in s;
    var digits := Itoa(v.major);
    assert IsDigit(digits[0]) && s[0] == digits[0];
    assert s[|s| - 1] == v.prerelease[|v.prerelease| - 1];
    assert TrimSpace(s) == s && TrimPrefix(s, "v") == s;
  }

  lemma Tagged(v: Semver)
    requires Proper(v) && '+' !in v.prerelease && v.prerelease != "" && !IsSpace(v.prerelease[|v.prerelease| - 1])
    ensures Body("v" + Shown(v)) == Shown(v)
  {
    var s := "v" + Shown(v);
    CoreHasNo(v, '+');
    assert '+' !in Shown(v);
    assert s[0] == 'v' && s[|s| - 1] == v.prerelease[|v.prerelease| - 1];
    assert TrimSpace(s) == s;
    assert "v" <= s && s[1..] == Shown(v);
  }

  lemma DirtyIsNoCommit()
    ensures !Described("rc.1-dirty")
  {
    DirtyPrerelease("rc.1");
    SplitStep("rc.1", "");
    OnePartIsNone("rc.1");
    assert "rc.1" + "-dirty" == "rc.1-dirty";
  }

  lemma ShownDirty()
    ensures "v" + Shown(Semver(1, 0, 0, "rc.1-dirty")) == "v1.0.0-rc.1-dirty"
  {
    CoreOfOne("rc.1-dirty");
    assert "v" + ("1.0.0" + "-" + "rc.1-dirty") == "v1.0.0-rc.1-dirty";
  }

  lemma CoreOfOne(prerelease: string)
    ensures Core(Semver(1, 0, 0, prerelease)) == "1.0.0"
  {
    assert Itoa(1) == "1" && Itoa(0) == "0";
  }

  /** The tag of a pre-release with changes on top is read as a version. */
  lemma DirtyIsAVersion()
    ensures IsVersion("v1.0.0-rc.1-dirty", Semver(1, 0, 0, "rc.1-dirty"))
  {
    DirtyIsNoCommit();
    ShownDirty();
    Tagged(Semver(1, 0, 0, "rc.1-dirty"));
  }
}
