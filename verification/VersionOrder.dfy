/** Comparing release tags for self-update (is_newer). */
module VersionOrder {
  import opened Common

  datatype Triple = Triple(major: nat, minor: nat, patch: nat) {
    predicate Less(other: Triple) {
      || major < other.major
      || (major == other.major && minor < other.minor)
      || (major == other.major && minor == other.minor && patch < other.patch)
    }
  }

  predicate IsDigit(c: char) { '0' <= c <= '9' }

  function DigitValue(c: char): nat
    requires IsDigit(c)
  {
    c as int - '0' as int
  }

  predicate AllDigits(s: string) {
    forall i :: 0 <= i < |s| ==> IsDigit(s[i])
  }

  function Value(digits: string): nat
    requires AllDigits(digits)
  {
    if digits == "" then 0 else Value(digits[..|digits| - 1]) * 10 + DigitValue(digits[|digits| - 1])
  }

  /** str::parse::<u32>: an optional plus sign, at least one digit, a value below 2^32. */
  function ParseU32(s: string): Option<nat> {
    var digits := if s != "" && s[0] == '+' then s[1..] else s;
    if digits == "" || !AllDigits(digits) then None
    else if Value(digits) < U32 then Some(Value(digits)) else None
  }

  /** The part before the first dot, and what follows the dot if there is one. */
  function BeforeDot(s: string): string {
    if s == "" || s[0] == '.' then "" else [s[0]] + BeforeDot(s[1..])
  }

  /** s.split('.') */
  function Split(s: string): (parts: seq<string>)
    ensures parts != []
  {
    var head := BeforeDot(s);
    BeforeDotIsPrefix(s);
    if |head| == |s| then [head] else [head] + Split(s[|head| + 1..])
  }

  lemma {:induction false} BeforeDotIsPrefix(s: string)
    ensures BeforeDot(s) <= s && '.' !in BeforeDot(s)
    ensures |BeforeDot(s)| < |s| ==> s[|BeforeDot(s)|] == '.'
  {
    if s != "" && s[0] != '.' {
      BeforeDotIsPrefix(s[1..]);
      assert s == [s[0]] + s[1..];
    }
  }

  /** filter_map over the parts: those that do not parse are skipped, and later ones move up. */
  function Numbers(parts: seq<string>): seq<nat> {
    if parts == [] then []
    else (match ParseU32(parts[0]) case Some(n) => [n] case None => []) + Numbers(parts[1..])
  }

  function At(ns: seq<nat>, i: nat): nat {
    if i < |ns| then ns[i] else 0
  }

  function Parse(s: string): Triple {
    var bare := if s != "" && s[0] == 'v' then s[1..] else s;
    var ns := Numbers(Split(bare));
    Triple(At(ns, 0), At(ns, 1), At(ns, 2))
  }

  predicate IsNewer(current: string, latest: string) {
    Parse(current).Less(Parse(latest))
  }

  // ---- Printed plain releases ----

  function Digit(d: nat): char
    requires d < 10
  {
    ('0' as int + d) as char
  }

  /** n in decimal, without leading zeros. */
  function Print(n: nat): string {
    if n < 10 then [Digit(n)] else Print(n / 10) + [Digit(n % 10)]
  }

  function PrintRelease(t: Triple): string {
    Print(t.major) + ("." + (Print(t.minor) + ("." + Print(t.patch))))
  }

  lemma {:induction false} PrintIsDigits(n: nat)
    ensures Print(n) != "" && AllDigits(Print(n))
    ensures Value(Print(n)) == n
  {
    if n < 10 {
      assert Print(n)[..0] == "";
    } else {
      PrintIsDigits(n / 10);
      assert Print(n)[..|Print(n)| - 1] == Print(n / 10);
    }
  }

  lemma PrintParses(n: nat)
    requires n < U32
    ensures ParseU32(Print(n)) == Some(n)
  {
    PrintIsDigits(n);
    assert IsDigit(Print(n)[0]);
  }

  lemma {:induction false} BeforeDotOfConcat(a: string, b: string)
    requires '.' !in a
    ensures BeforeDot(a + ("." + b)) == a
    ensures BeforeDot(a) == a
  {
    if a == "" {
      assert (a + ("." + b))[0] == '.';
    } else {
      assert (a + ("." + b))[1..] == a[1..] + ("." + b);
      BeforeDotOfConcat(a[1..], b);
      assert a == [a[0]] + a[1..];
    }
  }

  lemma SplitOfConcat(a: string, b: string)
    requires '.' !in a
    ensures Split(a + ("." + b)) == [a] + Split(b)
    ensures Split(a) == [a]
  {
    BeforeDotOfConcat(a, b);
    assert (a + ("." + b))[|a| + 1..] == b;
  }

  /** What counts as a number: digits with a value below 2^32, a plus sign before them or not; not a plus sign alone. */
  lemma NumbersExactly(n: nat)
    ensures ParseU32(Print(n)) == ParseU32("+" + Print(n)) == if n < 0x1_0000_0000 then Some(n) else None
    ensures ParseU32("") == ParseU32("+") == None
  {
    PrintIsDigits(n);
    assert IsDigit(Print(n)[0]);
    assert ("+" + Print(n))[1..] == Print(n);
  }

  lemma PrintHasNoDot(n: nat)
    ensures Print(n) != "" && '.' !in Print(n) && Print(n)[0] != 'v'
  {
    PrintIsDigits(n);
    assert IsDigit(Print(n)[0]);
  }

  lemma NumbersCons(part: string, rest: seq<string>)
    ensures Numbers([part] + rest) == (match ParseU32(part) case Some(n) => [n] case None => []) + Numbers(rest)
  {
    assert ([part] + rest)[1..] == rest;
  }

  /** The first part of a text that is a number; 0 if none is. */
  function FirstNumber(text: string): nat {
    At(Numbers(Split(text)), 0)
  }

  /** Two printed numbers and whatever follows them. */
  lemma ParseThree(major: nat, minor: nat, rest: string)
    requires major < U32 && minor < U32
    ensures var s := Print(major) + ("." + (Print(minor) + ("." + rest)));
      var t := Triple(major, minor, FirstNumber(rest));
      Parse(s) == t && Parse("v" + s) == t
  {
    hide ParseU32, Print, Numbers, Split;
    var a, b := Print(major), Print(minor);
    var s := a + ("." + (b + ("." + rest)));
    PrintHasNoDot(major);
    PrintHasNoDot(minor);
    SplitOfConcat(a, b + ("." + rest));
    SplitOfConcat(b, rest);
    PrintParses(major);
    PrintParses(minor);
    NumbersCons(b, Split(rest));
    NumbersCons(a, [b] + Split(rest));
    assert ("v" + s)[1..] == s && s[0] == a[0];
  }

  /** A part that is a number, with or without more parts after it. */
  lemma FirstIsNumber(n: nat, rest: string)
    requires n < U32
    ensures FirstNumber(Print(n)) == FirstNumber(Print(n) + ("." + rest)) == n
  {
    hide ParseU32, Print, Numbers, Split;
    PrintHasNoDot(n);
    PrintParses(n);
    SplitOfConcat(Print(n), rest);
    NumbersCons(Print(n), []);
    NumbersCons(Print(n), Split(rest));
    assert [Print(n)] + [] == [Print(n)];
  }

  /** For components below 2^32, the printed release, with or without a leading v, parses back. */
  lemma ReleaseRoundTrip(t: Triple)
    requires t.major < U32 && t.minor < U32 && t.patch < U32
    ensures Parse(PrintRelease(t)) == t && Parse("v" + PrintRelease(t)) == t
  {
    hide Parse, Print, FirstNumber;
    FirstIsNumber(t.patch, "");
    ParseThree(t.major, t.minor, Print(t.patch));
  }

  /** The three numbers as one, 32 bits for each. */
  function Weight(t: Triple): nat {
    (t.major * 0x1_0000_0000 + t.minor) * 0x1_0000_0000 + t.patch
  }

  /** On printed releases is_newer is the numeric precedence of their components: major, then minor, then patch. */
  lemma NewerIsPrecedence(current: Triple, latest: Triple)
    requires current.major < U32 && current.minor < U32 && current.patch < U32
    requires latest.major < U32 && latest.minor < U32 && latest.patch < U32
    ensures IsNewer(PrintRelease(current), "v" + PrintRelease(latest)) <==> current.Less(latest)
    ensures current.Less(latest) <==> Weight(current) < Weight(latest)
  {
    ReleaseRoundTrip(current);
    ReleaseRoundTrip(latest);
  }

  /** Whatever follows the minor number, its first numeric part is compared as the patch number. */
  lemma AnyThirdPart(major: nat, minor: nat, rest: string, release: Triple)
    requires major < U32 && minor < U32
    requires release.major < U32 && release.minor < U32 && release.patch < U32
    ensures var s, seen := Print(major) + ("." + (Print(minor) + ("." + rest))), Triple(major, minor, FirstNumber(rest));
      && (IsNewer(s, "v" + PrintRelease(release)) <==> seen.Less(release))
      && (IsNewer(PrintRelease(release), "v" + s) <==> release.Less(seen))
  {
    hide Parse, Print, FirstNumber, PrintRelease;
    ParseThree(major, minor, rest);
    ReleaseRoundTrip(release);
  }

  // ---- Pre-releases and other tagged versions ----

  /** A release with a tag after its patch number: '-' and a pre-release tag, or '+' and build metadata. */
  function PrintTagged(t: Triple, sep: char, tag: string): string {
    Print(t.major) + ("." + (Print(t.minor) + ("." + (Print(t.patch) + ([sep] + tag)))))
  }

  /** What is taken for the patch number of a tagged version: the first number among the tag's parts
      after its first dot, and 0 if there is none. The patch number itself is lost with the tag's start. */
  function TagNumber(tag: string): nat {
    At(Numbers(Split(tag)[1..]), 0)
  }

  /** A character other than a digit after the first makes a part no number. */
  lemma TaggedPart(tagged: string, i: nat)
    requires 0 < i < |tagged| && !IsDigit(tagged[i])
    ensures ParseU32(tagged).None?
  {
    if tagged[0] == '+' {
      assert tagged[1..][i - 1] == tagged[i];
      assert !AllDigits(tagged[1..]);
    } else {
      assert !AllDigits(tagged);
    }
  }

  lemma {:induction false} BeforeDotPrepend(a: string, s: string)
    requires '.' !in a
    ensures BeforeDot(a + s) == a + BeforeDot(s)
  {
    if a == "" {
      assert a + s == s;
    } else {
      assert (a + s)[1..] == a[1..] + s;
      BeforeDotPrepend(a[1..], s);
      assert a == [a[0]] + a[1..];
    }
  }

  /** Prepending text without a dot changes only the first part. */
  lemma SplitPrepend(a: string, s: string)
    requires '.' !in a
    ensures Split(a + s) == [a + BeforeDot(s)] + Split(s)[1..]
  {
    BeforeDotPrepend(a, s);
    BeforeDotIsPrefix(s);
    if |BeforeDot(s)| < |s| {
      assert (a + s)[|a + BeforeDot(s)| + 1..] == s[|BeforeDot(s)| + 1..];
    }
  }

  /** What a tagged version is compared as: its major and minor number and its tag's number. */
  lemma TaggedParse(t: Triple, sep: char, tag: string)
    requires t.major < U32 && t.minor < U32 && !IsDigit(sep) && sep != '.'
    ensures var seen := Triple(t.major, t.minor, TagNumber(tag));
      Parse(PrintTagged(t, sep, tag)) == seen && Parse("v" + PrintTagged(t, sep, tag)) == seen
  {
    hide Parse, Print, ParseU32, Numbers, Split;
    var patch := Print(t.patch);
    PrintHasNoDot(t.patch);
    var start := patch + [sep];
    assert patch + ([sep] + tag) == start + tag;
    SplitPrepend(start, tag);
    TaggedPart(start + BeforeDot(tag), |patch|);
    NumbersCons(start + BeforeDot(tag), Split(tag)[1..]);
    ParseThree(t.major, t.minor, start + tag);
  }

  /** A tag without a dot counts as patch 0. */
  lemma DotFreeTag(tag: string)
    requires '.' !in tag
    ensures TagNumber(tag) == 0
  {
    BeforeDotOfConcat(tag, "");
  }

  /** Of a tag like rc.7 the number becomes the patch number; other first parts are skipped. */
  lemma DottedTag(first: string, rest: string, n: nat)
    requires '.' !in first && n < U32
    ensures TagNumber(first + ("." + rest)) == FirstNumber(rest)
    ensures TagNumber(first + ("." + Print(n))) == n
  {
    hide Print, Numbers, Split;
    SplitOfConcat(first, rest);
    SplitOfConcat(first, Print(n));
    FirstIsNumber(n, "");
  }

  /** A tagged version against a plain release, in both directions: the tag's number stands in for the patch. */
  lemma TaggedAgainstRelease(t: Triple, sep: char, tag: string, release: Triple)
    requires t.major < U32 && t.minor < U32 && !IsDigit(sep) && sep != '.'
    requires release.major < U32 && release.minor < U32 && release.patch < U32
    ensures IsNewer(PrintTagged(t, sep, tag), "v" + PrintRelease(release)) <==> t.(patch := TagNumber(tag)).Less(release)
    ensures IsNewer(PrintRelease(release), "v" + PrintTagged(t, sep, tag)) <==> release.Less(t.(patch := TagNumber(tag)))
  {
    hide Parse, PrintTagged, PrintRelease;
    TaggedParse(t, sep, tag);
    ReleaseRoundTrip(release);
  }

  /** Item 11: a pre-release precedes its own release and every later one. */
  predicate PreReleasePrecedes(core: Triple, release: Triple) {
    core.Less(release) || core == release
  }

  predicate SameMinor(a: Triple, b: Triple) {
    a.major == b.major && a.minor == b.minor
  }

  /** Against a plain release is_newer is the precedence of a pre-release exactly when the two differ in
      major or minor number, or the tag's number is on the side of the release's patch number on which
      the pre-release's own patch number is, its own release counting as above it. */
  lemma PreReleasesAreMisread(core: Triple, tag: string, release: Triple)
    requires core.major < U32 && core.minor < U32
    requires release.major < U32 && release.minor < U32 && release.patch < U32
    ensures var pre, plain := PrintTagged(core, '-', tag), PrintRelease(release);
      var seen := TagNumber(tag);
      && ((IsNewer(pre, "v" + plain) <==> PreReleasePrecedes(core, release)) <==>
           (SameMinor(core, release) ==> (seen < release.patch <==> core.patch <= release.patch)))
      && ((IsNewer(plain, "v" + pre) <==> release.Less(core)) <==>
           (SameMinor(core, release) ==> (release.patch < seen <==> release.patch < core.patch)))
      && ((IsNewer(pre, "v" + plain) <==> PreReleasePrecedes(core, release)) && (IsNewer(plain, "v" + pre) <==> release.Less(core))
          <==> (SameMinor(core, release) ==>
                 seen != release.patch && (release.patch < seen <==> release.patch < core.patch)))
  {
    hide IsNewer, PrintTagged, PrintRelease, TagNumber;
    TaggedAgainstRelease(core, '-', tag, release);
  }

  /** So a pre-release is offered over its own release exactly when its tag's number exceeds the
      patch number, and its release over it exactly when it is below. */
  lemma OwnRelease(core: Triple, tag: string)
    requires core.major < U32 && core.minor < U32 && core.patch < U32
    ensures IsNewer(PrintRelease(core), "v" + PrintTagged(core, '-', tag)) <==> TagNumber(tag) > core.patch
    ensures IsNewer(PrintTagged(core, '-', tag), "v" + PrintRelease(core)) <==> TagNumber(tag) < core.patch
  {
    hide IsNewer, PrintTagged, PrintRelease, TagNumber;
    TaggedAgainstRelease(core, '-', tag, core);
  }

  /** Two pre-releases are compared by their tags' numbers alone once major and minor agree. */
  lemma TwoPreReleases(a: Triple, tag: string, b: Triple, tag': string)
    requires a.major < U32 && a.minor < U32 && b.major < U32 && b.minor < U32
    ensures IsNewer(PrintTagged(a, '-', tag), "v" + PrintTagged(b, '-', tag'))
       <==> a.(patch := TagNumber(tag)).Less(b.(patch := TagNumber(tag')))
  {
    hide Parse, PrintTagged, TagNumber;
    TaggedParse(a, '-', tag);
    TaggedParse(b, '-', tag');
  }

  // Item 11.4: tags compare by their dot-separated identifiers, from the left.

  predicate Numeric(id: string) {
    id != "" && AllDigits(id)
  }

  predicate CharsPrecede(a: string, b: string) {
    b != "" && (a == "" || a[0] < b[0] || (a[0] == b[0] && CharsPrecede(a[1..], b[1..])))
  }

  predicate IdentifierPrecedes(a: string, b: string) {
    if Numeric(a) && Numeric(b) then Value(a) < Value(b)
    else if Numeric(a) || Numeric(b) then Numeric(a)
    else CharsPrecede(a, b)
  }

  predicate TagPrecedes(a: seq<string>, b: seq<string>) {
    b != [] && (a == [] || IdentifierPrecedes(a[0], b[0]) || (a[0] == b[0] && TagPrecedes(a[1..], b[1..])))
  }

  /** The chain given there: alpha, alpha.1, alpha.beta, beta, beta.2, beta.11, rc.1. */
  lemma ChainOfItemEleven()
    ensures TagPrecedes(["alpha"], ["alpha", "1"]) && TagPrecedes(["alpha", "1"], ["alpha", "beta"])
    ensures TagPrecedes(["alpha", "beta"], ["beta"]) && TagPrecedes(["beta"], ["beta", "2"])
    ensures TagPrecedes(["beta", "2"], ["beta", "11"]) && TagPrecedes(["beta", "11"], ["rc", "1"])
  {
    assert !IsDigit("alpha"[0]) && !IsDigit("beta"[0]) && !IsDigit("rc"[0]) && IsDigit('1') && IsDigit('2');
    assert "1"[..0] == "" && "2"[..0] == "" && "11"[..1] == "1";
    assert Value("1") == 1 && Value("2") == 2 && Value("11") == 11;
    assert ["alpha", "1"][1..] == ["1"] && ["alpha", "beta"][1..] == ["beta"];
    assert ["beta", "2"][1..] == ["2"] && ["beta", "11"][1..] == ["11"];
    assert CharsPrecede("alpha", "beta") && CharsPrecede("beta", "rc");
  }

  /** For two pre-releases the code is right exactly when major or minor differ, or the tags' numbers
      compare as the patch numbers do and, those being equal, as the tags themselves do. */
  lemma TwoPreReleasesExactlyWhen(a: Triple, tag: string, b: Triple, tag': string)
    requires a.major < U32 && a.minor < U32 && b.major < U32 && b.minor < U32
    ensures (IsNewer(PrintTagged(a, '-', tag), "v" + PrintTagged(b, '-', tag')) <==>
              a.Less(b) || (a == b && TagPrecedes(Split(tag), Split(tag'))))
       <==> (SameMinor(a, b) ==>
              (TagNumber(tag) < TagNumber(tag') <==>
                a.patch < b.patch || (a.patch == b.patch && TagPrecedes(Split(tag), Split(tag')))))
  {
    hide IsNewer, PrintTagged, TagNumber, TagPrecedes;
    TwoPreReleases(a, tag, b, tag');
  }

  lemma {:induction false} NotBeforeItself(a: string)
    ensures !CharsPrecede(a, a)
  {
    if a != "" {
      NotBeforeItself(a[1..]);
    }
  }

  /** Numbered pre-releases of one kind and one release, rc.1, rc.2 and so on, are compared rightly. */
  lemma OneSeries(core: Triple, kind: string, m: nat, n: nat)
    requires core.major < U32 && core.minor < U32 && m < U32 && n < U32 && '.' !in kind
    ensures var tag, tag' := kind + ("." + Print(m)), kind + ("." + Print(n));
      && (IsNewer(PrintTagged(core, '-', tag), "v" + PrintTagged(core, '-', tag')) <==> m < n)
      && (TagPrecedes(Split(tag), Split(tag')) <==> m < n)
  {
    hide IsNewer, PrintTagged, TagNumber, Split, Print, CharsPrecede;
    DottedTag(kind, "", m);
    DottedTag(kind, "", n);
    TwoPreReleases(core, kind + ("." + Print(m)), core, kind + ("." + Print(n)));
    SplitOfConcat(kind, Print(m));
    SplitOfConcat(kind, Print(n));
    NumberSplits(m);
    NumberSplits(n);
    NotBeforeItself(kind);
    assert TagPrecedes([Print(m)], [Print(n)]) <==> m < n by {
      PrintIsDigits(m);
      PrintIsDigits(n);
    }
    assert ([kind] + [Print(m)])[1..] == [Print(m)] && ([kind] + [Print(n)])[1..] == [Print(n)];
  }

  lemma NumberSplits(n: nat)
    ensures Split(Print(n)) == [Print(n)]
  {
    PrintHasNoDot(n);
    SplitOfConcat(Print(n), "");
  }

  /** Those of two kinds need not be: rc.1 comes after beta.2, which is offered over it. */
  lemma TwoSeriesExample(core: Triple)
    requires core.major < U32 && core.minor < U32
    ensures IsNewer(PrintTagged(core, '-', "rc" + ("." + Print(1))), "v" + PrintTagged(core, '-', "beta" + ("." + Print(2))))
    ensures TagPrecedes(Split("beta" + ("." + Print(2))), Split("rc" + ("." + Print(1))))
  {
    hide IsNewer, PrintTagged, TagNumber, Split, Print;
    DottedTag("rc", "", 1);
    DottedTag("beta", "", 2);
    TwoPreReleases(core, "rc" + ("." + Print(1)), core, "beta" + ("." + Print(2)));
    SplitOfConcat("rc", Print(1));
    SplitOfConcat("beta", Print(2));
    assert !IsDigit("rc"[0]) && !IsDigit("beta"[0]) && CharsPrecede("beta", "rc");
  }

  /** Build metadata, which precedence ignores, is misread in the same way: right against a plain
      release exactly when the tag's number and the patch number compare alike with the release's. */
  lemma BuildMetadataIsMisread(core: Triple, tag: string, release: Triple)
    requires core.major < U32 && core.minor < U32
    requires release.major < U32 && release.minor < U32 && release.patch < U32
    ensures var built, plain := PrintTagged(core, '+', tag), PrintRelease(release);
      var seen := TagNumber(tag);
      (IsNewer(built, "v" + plain) <==> core.Less(release)) && (IsNewer(plain, "v" + built) <==> release.Less(core))
      <==> (SameMinor(core, release) ==>
             (seen < release.patch <==> core.patch < release.patch) && (release.patch < seen <==> release.patch < core.patch))
  {
    hide IsNewer, PrintTagged, PrintRelease, TagNumber;
    TaggedAgainstRelease(core, '+', tag, release);
  }

  /** Both failures, concretely: a pre-release offered over its own release, and a release not
      offered over its own pre-release. */
  lemma MisreadExamples()
    ensures IsNewer("1.2.3", "v1.2.3-rc.7")
    ensures !IsNewer("1.2.0-rc", "v1.2.0")
  {
    hide Parse, IsNewer, TagNumber;
    var three, zero := Triple(1, 2, 3), Triple(1, 2, 0);
    assert Print(0) == "0" && Print(1) == "1" && Print(2) == "2" && Print(3) == "3" && Print(7) == "7";
    assert "rc" + ("." + "7") == "rc.7";
    DottedTag("rc", "", 7);
    DotFreeTag("rc");
    OwnRelease(three, "rc.7");
    OwnRelease(zero, "rc");
    assert PrintRelease(three) == "1.2.3" && PrintTagged(three, '-', "rc.7") == "1.2.3-rc.7";
    assert PrintRelease(zero) == "1.2.0" && PrintTagged(zero, '-', "rc") == "1.2.0-rc";
    assert "v" + "1.2.3-rc.7" == "v1.2.3-rc.7" && "v" + "1.2.0" == "v1.2.0";
  }

  // ---- A strict order on all strings ----

  lemma NewerIsStrictOrder(a: string, b: string, c: string)
    ensures !IsNewer(a, a)
    ensures IsNewer(a, b) && IsNewer(b, c) ==> IsNewer(a, c)
    ensures !IsNewer(a, b) && !IsNewer(b, a) <==> Parse(a) == Parse(b)
  {
    hide Parse;
  }

  /** Each version is newer than the one before it. */
  predicate UpgradeChain(versions: seq<string>) {
    forall i :: 0 <= i < |versions| - 1 ==> IsNewer(versions[i], versions[i + 1])
  }

  /** A chain of upgrades strictly increases from any point to any later one, so it never comes back. */
  lemma {:induction false} UpgradesNeverCycle(versions: seq<string>, i: nat, j: nat)
    requires UpgradeChain(versions) && i < j < |versions|
    ensures IsNewer(versions[i], versions[j]) && versions[i] != versions[j]
  {
    hide Parse;
    assert IsNewer(versions[j - 1], versions[j]);
    if i < j - 1 {
      UpgradesNeverCycle(versions, i, j - 1);
      NewerIsStrictOrder(versions[i], versions[j - 1], versions[j]);
    }
  }
}
