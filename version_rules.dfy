/** The release-versioning rules of scripts/version.js: how the new Android
    and iOS version strings and build numbers of one flavour (`uat` or `prod`)
    are chosen, checked and turned into a git tag and commit message. The
    prompts, git commands and file writes are left out: prompt answers are
    given as a list, the semantic-versioning predicates (`semver.valid`,
    `semver.lt`) are parameters, and the outcome says what would be written. */
module VersionRules {
  import opened Wrappers
  import opened JsonValue
  import opened Text

  datatype Flavor = Uat | Prod

  function FlavorKey(f: Flavor): string {
    if f == Uat then "uat" else "prod"
  }

  /** The version information of one flavour. Build numbers are JavaScript
      numbers, so they may be fractional. */
  datatype PlatformVersions = PlatformVersions(
    androidVersion: string, androidBuildNumber: real,
    iosVersion: string, iosBuildNumber: real)

  /** `Number.isInteger(n)`. */
  predicate IsInteger(n: real) {
    n == n.Floor as real
  }

  // ---------------------------------------------------------------------
  // The `version` object of app.json
  // ---------------------------------------------------------------------

  /** `v[key]` on any value: only objects have fields. */
  function Member(v: Json, key: string): Option<Json> {
    if v.JObj? then Get(v.fields, key) else None
  }

  predicate IsString(v: Option<Json>) {
    v.Some? && v.value.JStr?
  }

  predicate IsNumber(v: Option<Json>) {
    v.Some? && v.value.JNum?
  }

  /** One pass of the `validateVersionObject` loop: the flavour object exists
      and its four fields have the right types. */
  predicate FlavorValid(version: Option<Json>, flavor: string) {
    var f := if version.Some? then Member(version.value, flavor) else None;
    f.Some? && Truthy(f.value) &&
    IsString(Member(f.value, "androidVersion")) && IsString(Member(f.value, "iosVersion")) &&
    IsNumber(Member(f.value, "androidBuildNumber")) && IsNumber(Member(f.value, "iosBuildNumber"))
  }

  /** The structure `validateVersionObject` accepts. */
  predicate VersionObjectValid(version: Option<Json>) {
    FlavorValid(version, "uat") && FlavorValid(version, "prod")
  }

  /** `validateVersionObject(version)`: the loop over both flavours with its
      early returns. */
  method ValidateVersionObject(version: Option<Json>) returns (ok: bool)
    ensures ok == VersionObjectValid(version)
  {
    var flavors := ["uat", "prod"];
    for i := 0 to |flavors|
      invariant forall j | 0 <= j < i :: FlavorValid(version, flavors[j])
    {
      var f := if version.Some? then Member(version.value, flavors[i]) else None;
      if f.None? || !Truthy(f.value) { return false; }
      if !IsString(Member(f.value, "androidVersion")) { return false; }
      if !IsString(Member(f.value, "iosVersion")) { return false; }
      if !IsNumber(Member(f.value, "androidBuildNumber")) { return false; }
      if !IsNumber(Member(f.value, "iosBuildNumber")) { return false; }
      assert FlavorValid(version, flavors[i]);
    }
    assert flavors[0] == "uat" && flavors[1] == "prod";
    return true;
  }

  /** The fields of a flavour object, as the script builds `newVersions`. */
  function Encode(p: PlatformVersions): seq<Field> {
    [Field("androidVersion", JStr(p.androidVersion)), Field("androidBuildNumber", JNum(p.androidBuildNumber)),
     Field("iosVersion", JStr(p.iosVersion)), Field("iosBuildNumber", JNum(p.iosBuildNumber))]
  }

  /** The fields of flavour `flavor` of a valid `version` object. */
  function FlavorFields(version: Json, flavor: Flavor): seq<Field>
    requires VersionObjectValid(Some(version))
  {
    Member(version, FlavorKey(flavor)).value.fields
  }

  /** The version information of flavour `flavor` of a valid `version`. */
  function Decode(version: Json, flavor: Flavor): (r: PlatformVersions)
    requires VersionObjectValid(Some(version))
  {
    var f := Member(version, FlavorKey(flavor)).value;
    PlatformVersions(Member(f, "androidVersion").value.s, Member(f, "androidBuildNumber").value.n,
                     Member(f, "iosVersion").value.s, Member(f, "iosBuildNumber").value.n)
  }

  /** A `version` object holding the two flavours. */
  function EncodeApp(uat: PlatformVersions, prod: PlatformVersions): Json {
    JObj([Field("uat", JObj(Encode(uat))), Field("prod", JObj(Encode(prod)))])
  }

  /** The field names are pairwise different. */
  lemma KeysDistinct()
    ensures "androidVersion" != "androidBuildNumber" && "androidVersion" != "iosVersion"
    ensures "androidVersion" != "iosBuildNumber" && "androidBuildNumber" != "iosVersion"
    ensures "androidBuildNumber" != "iosBuildNumber" && "iosVersion" != "iosBuildNumber"
    ensures "uat" != "prod"
  {
    assert "androidVersion"[7] != "androidBuildNumber"[7];
    assert "androidVersion"[0] != "iosVersion"[0] && "androidVersion"[0] != "iosBuildNumber"[0];
    assert "androidBuildNumber"[0] != "iosVersion"[0] && "androidBuildNumber"[0] != "iosBuildNumber"[0];
    assert "iosVersion"[3] != "iosBuildNumber"[3];
    assert "uat"[0] != "prod"[0];
  }

  /** Reading the fields of an encoded flavour object. */
  lemma GetEncoded(p: PlatformVersions)
    ensures Get(Encode(p), "androidVersion") == Some(JStr(p.androidVersion))
    ensures Get(Encode(p), "androidBuildNumber") == Some(JNum(p.androidBuildNumber))
    ensures Get(Encode(p), "iosVersion") == Some(JStr(p.iosVersion))
    ensures Get(Encode(p), "iosBuildNumber") == Some(JNum(p.iosBuildNumber))
  {
    KeysDistinct();
    var e := Encode(p);
    var e1 := [e[1], e[2], e[3]];
    var e2 := [e[2], e[3]];
    var e3 := [e[3]];
    assert e[1..] == e1 && e1[1..] == e2 && e2[1..] == e3;
    assert Get(e1, "androidBuildNumber") == Some(JNum(p.androidBuildNumber));
    assert Get(e3, "iosBuildNumber") == Some(JNum(p.iosBuildNumber));
    assert Get(e2, "iosVersion") == Some(JStr(p.iosVersion));
    assert Get(e2, "iosBuildNumber") == Get(e3, "iosBuildNumber");
    assert Get(e1, "iosVersion") == Get(e2, "iosVersion");
    assert Get(e1, "iosBuildNumber") == Get(e2, "iosBuildNumber");
  }

  /** A flavour object built from version information passes the check and
      reads back as that information. */
  lemma FlavorEncoded(version: Json, key: string, p: PlatformVersions)
    requires Member(version, key) == Some(JObj(Encode(p)))
    ensures FlavorValid(Some(version), key)
    ensures Member(JObj(Encode(p)), "androidVersion").value.s == p.androidVersion
    ensures Member(JObj(Encode(p)), "androidBuildNumber").value.n == p.androidBuildNumber
    ensures Member(JObj(Encode(p)), "iosVersion").value.s == p.iosVersion
    ensures Member(JObj(Encode(p)), "iosBuildNumber").value.n == p.iosBuildNumber
  {
    GetEncoded(p);
  }

  /** Every pair of typed flavours makes a valid `version` object, from which
      they are read back unchanged. */
  lemma EncodeRoundTrip(uat: PlatformVersions, prod: PlatformVersions)
    ensures VersionObjectValid(Some(EncodeApp(uat, prod)))
    ensures Decode(EncodeApp(uat, prod), Uat) == uat && Decode(EncodeApp(uat, prod), Prod) == prod
  {
    KeysDistinct();
    var v := EncodeApp(uat, prod);
    var rest := [Field("prod", JObj(Encode(prod)))];
    assert v.fields[1..] == rest;
    assert Get(rest, "prod") == Some(JObj(Encode(prod)));
    assert v.fields[0].key != "prod";
    assert Get(v.fields, "prod") == Get(rest, "prod");
    assert Member(v, "uat") == Some(JObj(Encode(uat)));
    assert Member(v, "prod") == Some(JObj(Encode(prod)));
    FlavorEncoded(v, "uat", uat);
    FlavorEncoded(v, "prod", prod);
  }

  /** `compareObjects(o1, o2)`: sorting the entries by key before
      serialising makes the comparison ignore key order, so two objects
      compare equal when they have the same number of fields and every field
      of the first is in the second with the same value. */
  predicate CompareObjects(o1: seq<Field>, o2: seq<Field>) {
    |o1| == |o2| && forall i | 0 <= i < |o1| :: Get(o2, o1[i].key) == Some(o1[i].value)
  }

  /** On flavour objects built from version information, the comparison is
      equality of all four fields. */
  lemma CompareEncoded(a: PlatformVersions, b: PlatformVersions)
    ensures CompareObjects(Encode(a), Encode(b)) <==> a == b
  {
    GetEncoded(a);
    GetEncoded(b);
    var ea := Encode(a);
    if CompareObjects(ea, Encode(b)) {
      assert ea[0].key == "androidVersion" && ea[1].key == "androidBuildNumber";
      assert ea[2].key == "iosVersion" && ea[3].key == "iosBuildNumber";
      assert Get(Encode(b), ea[0].key) == Some(ea[0].value);
      assert Get(Encode(b), ea[1].key) == Some(ea[1].value);
      assert Get(Encode(b), ea[2].key) == Some(ea[2].value);
      assert Get(Encode(b), ea[3].key) == Some(ea[3].value);
    } else if a == b {
      forall i | 0 <= i < 4 ensures Get(Encode(b), ea[i].key) == Some(ea[i].value) {
        assert ea[i] in [ea[0], ea[1], ea[2], ea[3]];
      }
    }
  }

  // ---------------------------------------------------------------------
  // Choosing the new versions
  // ---------------------------------------------------------------------

  /** Characters `String.prototype.trim` removes (the ASCII white space, the
      line terminators, no-break space and the byte-order mark). */
  predicate IsSpace(c: char) {
    c == ' ' || c == '\t' || c == '\n' || c == '\r' || c == '\U{000B}' || c == '\U{000C}' ||
    c == '\U{00A0}' || c == '\U{FEFF}' || c == '\U{2028}' || c == '\U{2029}'
  }

  /** `s.trim()`. */
  function Trim(s: string): (r: string)
    ensures |r| <= |s|
    ensures r != [] ==> !IsSpace(r[0]) && !IsSpace(r[|r| - 1])
    decreases |s|
  {
    if s == [] then s
    else if IsSpace(s[0]) then Trim(s[1..])
    else if IsSpace(s[|s| - 1]) then Trim(s[..|s| - 1])
    else s
  }

  /** An empty answer or `?` asks for help and the question is repeated. */
  predicate AsksHelp(answer: string) {
    Trim(answer) == "" || Trim(answer) == "?"
  }

  /** The first answer to the version prompt that is not a help request,
      trimmed; none while every answer so far asked for help. */
  function FirstAnswer(answers: seq<string>): (r: Option<string>)
    ensures r.None? <==> forall k | 0 <= k < |answers| :: AsksHelp(answers[k])
    ensures r.Some? ==> exists k | 0 <= k < |answers| :: r.value == Trim(answers[k]) && !AsksHelp(answers[k]) &&
                          forall j | 0 <= j < k :: AsksHelp(answers[j])
    decreases |answers|
  {
    if answers == [] then None
    else if AsksHelp(answers[0]) then
      var r := FirstAnswer(answers[1..]);
      assert r.Some? ==> exists k | 0 <= k < |answers[1..]| :: r.value == Trim(answers[1..][k]) && !AsksHelp(answers[1..][k]) &&
                          forall j | 0 <= j < k :: AsksHelp(answers[1..][j]);
      r
    else Some(Trim(answers[0]))
  }

  /** The new version strings as they are being chosen. */
  datatype Versions = Versions(android: string, ios: string)

  /** One comma-separated item of the answer: `a:X` sets Android, `i:X` sets
      iOS, anything else sets both. */
  function ApplyItem(v: Versions, item: string): Versions {
    if StartsWith(item, "a:") then v.(android := item[2..])
    else if StartsWith(item, "i:") then v.(ios := item[2..])
    else Versions(item, item)
  }

  /** The items applied in order. */
  function ApplyItems(v: Versions, items: seq<string>): Versions
    decreases |items|
  {
    if items == [] then v else ApplyItem(ApplyItems(v, items[..|items| - 1]), items[|items| - 1])
  }

  /** The Android version the last item that sets it gives, if any. */
  function LastAndroid(items: seq<string>): Option<string>
    decreases |items|
  {
    if items == [] then None
    else
      var item := items[|items| - 1];
      if StartsWith(item, "a:") then Some(item[2..])
      else if StartsWith(item, "i:") then LastAndroid(items[..|items| - 1])
      else Some(item)
  }

  /** The iOS version the last item that sets it gives, if any. */
  function LastIos(items: seq<string>): Option<string>
    decreases |items|
  {
    if items == [] then None
    else
      var item := items[|items| - 1];
      if StartsWith(item, "a:") then LastIos(items[..|items| - 1])
      else if StartsWith(item, "i:") then Some(item[2..])
      else Some(item)
  }

  /** Later items win: each platform ends with the version of the last item
      that names it (a bare version names both), or keeps its current one. */
  lemma {:induction false} LaterItemsWin(v: Versions, items: seq<string>)
    ensures ApplyItems(v, items).android == LastAndroid(items).GetOr(v.android)
    ensures ApplyItems(v, items).ios == LastIos(items).GetOr(v.ios)
    decreases |items|
  {
    if items != [] {
      LaterItemsWin(v, items[..|items| - 1]);
    }
  }

  /** `opts.x` is truthy: given and not empty. */
  predicate Given(o: Option<string>) {
    o.Some? && o.value != ""
  }

  /** The version flags: `--version` sets both, then the platform flags
      override it. */
  function ApplyFlags(v: Versions, version: Option<string>, androidVersion: Option<string>,
                      iosVersion: Option<string>): (r: Versions)
    ensures r.android == if Given(androidVersion) then androidVersion.value
                         else if Given(version) then version.value else v.android
    ensures r.ios == if Given(iosVersion) then iosVersion.value
                     else if Given(version) then version.value else v.ios
  {
    var v1 := if Given(version) then Versions(version.value, version.value) else v;
    var v2 := if Given(androidVersion) then v1.(android := androidVersion.value) else v1;
    if Given(iosVersion) then v2.(ios := iosVersion.value) else v2
  }

  /** `--bump-build-number [target]`: no target bumps both platforms. */
  datatype BumpTarget = BumpBoth | BumpAndroid | BumpIos

  /** What the command line asks for in flavour mode. */
  datatype VersionInput =
    | Bump(target: BumpTarget)
    /** Version flags; with none of them given the version is prompted for
        and `answers` are the lines typed. */
    | SetVersions(version: Option<string>, androidVersion: Option<string>, iosVersion: Option<string>,
                  answers: seq<string>)

  /** The variables `newAndroidVersion`, `newIosVersion`,
      `newAndroidBuildNumber` and `newIosBuildNumber` of the script. */
  class VersionPlan {
    var newAndroidVersion: string
    var newIosVersion: string
    var newAndroidBuildNumber: real
    var newIosBuildNumber: real

    /** They start as the current versions of the flavour. */
    constructor (current: PlatformVersions)
      ensures Current() == current
    {
      newAndroidVersion := current.androidVersion;
      newIosVersion := current.iosVersion;
      newAndroidBuildNumber := current.androidBuildNumber;
      newIosBuildNumber := current.iosBuildNumber;
    }

    function Current(): PlatformVersions
      reads this
    {
      PlatformVersions(newAndroidVersion, newAndroidBuildNumber, newIosVersion, newIosBuildNumber)
    }

    /** The `forEach` over the comma-separated items of a prompt answer. */
    method ApplyAnswer(answer: string)
      modifies this
      ensures Versions(newAndroidVersion, newIosVersion) ==
              ApplyItems(old(Versions(newAndroidVersion, newIosVersion)), Split(answer, ','))
      ensures newAndroidBuildNumber == old(newAndroidBuildNumber) && newIosBuildNumber == old(newIosBuildNumber)
    {
      var items := Split(answer, ',');
      ghost var start := Versions(newAndroidVersion, newIosVersion);
      for i := 0 to |items|
        invariant Versions(newAndroidVersion, newIosVersion) == ApplyItems(start, items[..i])
        invariant newAndroidBuildNumber == old(newAndroidBuildNumber) && newIosBuildNumber == old(newIosBuildNumber)
      {
        var version := items[i];
        assert items[..i + 1][..i] == items[..i];
        if StartsWith(version, "a:") {
          newAndroidVersion := version[2..];
        } else if StartsWith(version, "i:") {
          newIosVersion := version[2..];
        } else {
          newAndroidVersion := version;
          newIosVersion := version;
        }
      }
      assert items[..|items|] == items;
    }

    /** The version flags, in the script's order. */
    method ApplyVersionFlags(version: Option<string>, androidVersion: Option<string>, iosVersion: Option<string>)
      modifies this
      ensures Versions(newAndroidVersion, newIosVersion) ==
              ApplyFlags(old(Versions(newAndroidVersion, newIosVersion)), version, androidVersion, iosVersion)
      ensures newAndroidBuildNumber == old(newAndroidBuildNumber) && newIosBuildNumber == old(newIosBuildNumber)
    {
      if Given(version) {
        newAndroidVersion := version.value;
        newIosVersion := version.value;
      }
      if Given(androidVersion) {
        newAndroidVersion := androidVersion.value;
      }
      if Given(iosVersion) {
        newIosVersion := iosVersion.value;
      }
    }

    /** A platform's build number goes up by one exactly when its version
        string changed. */
    method BumpChangedBuilds(current: PlatformVersions)
      modifies this
      ensures newAndroidVersion == old(newAndroidVersion) && newIosVersion == old(newIosVersion)
      ensures newAndroidBuildNumber ==
              old(newAndroidBuildNumber) + if newAndroidVersion != current.androidVersion then 1.0 else 0.0
      ensures newIosBuildNumber ==
              old(newIosBuildNumber) + if newIosVersion != current.iosVersion then 1.0 else 0.0
    {
      if newAndroidVersion != current.androidVersion {
        newAndroidBuildNumber := newAndroidBuildNumber + 1.0;
      }
      if newIosVersion != current.iosVersion {
        newIosBuildNumber := newIosBuildNumber + 1.0;
      }
    }

    /** `--bump-build-number [target]`: the target's build number (both
        without a target) goes up by one; versions stay. */
    method BumpBuildNumber(target: BumpTarget)
      modifies this
      ensures newAndroidVersion == old(newAndroidVersion) && newIosVersion == old(newIosVersion)
      ensures newAndroidBuildNumber == old(newAndroidBuildNumber) + if target != BumpIos then 1.0 else 0.0
      ensures newIosBuildNumber == old(newIosBuildNumber) + if target != BumpAndroid then 1.0 else 0.0
    {
      if target != BumpIos {
        newAndroidBuildNumber := newAndroidBuildNumber + 1.0;
      }
      if target != BumpAndroid {
        newIosBuildNumber := newIosBuildNumber + 1.0;
      }
    }
  }

  /** The versions flavour mode settles on, before any check; `None` while
      the prompt is still waiting for a real answer. */
  function Chosen(current: PlatformVersions, input: VersionInput): (r: Option<PlatformVersions>)
    ensures input.Bump? ==> r.Some? && r.value.androidVersion == current.androidVersion &&
                                      r.value.iosVersion == current.iosVersion
    ensures r.Some? ==> r.value.androidBuildNumber - current.androidBuildNumber in {0.0, 1.0}
    ensures r.Some? ==> r.value.iosBuildNumber - current.iosBuildNumber in {0.0, 1.0}
  {
    match input
    case Bump(target) =>
      Some(current.(androidBuildNumber := current.androidBuildNumber + if target != BumpIos then 1.0 else 0.0,
                    iosBuildNumber := current.iosBuildNumber + if target != BumpAndroid then 1.0 else 0.0))
    case SetVersions(version, androidVersion, iosVersion, answers) =>
      var start := Versions(current.androidVersion, current.iosVersion);
      var v :=
        if !Given(version) && !Given(androidVersion) && !Given(iosVersion) then
          (var line := FirstAnswer(answers); if line.None? then None else Some(ApplyItems(start, Split(line.value, ','))))
        else Some(ApplyFlags(start, version, androidVersion, iosVersion));
      if v.None? then None
      else
        Some(PlatformVersions(
          v.value.android, current.androidBuildNumber + if v.value.android != current.androidVersion then 1.0 else 0.0,
          v.value.ios, current.iosBuildNumber + if v.value.ios != current.iosVersion then 1.0 else 0.0))
  }

  /** When versions are set, a build number goes up, by exactly one, if and
      only if that platform's version changed. */
  lemma BuildFollowsVersion(current: PlatformVersions, input: VersionInput)
    requires input.SetVersions? && Chosen(current, input).Some?
    ensures var r := Chosen(current, input).value;
            (r.androidBuildNumber == current.androidBuildNumber + 1.0 <==> r.androidVersion != current.androidVersion) &&
            (r.androidBuildNumber == current.androidBuildNumber <==> r.androidVersion == current.androidVersion) &&
            (r.iosBuildNumber == current.iosBuildNumber + 1.0 <==> r.iosVersion != current.iosVersion) &&
            (r.iosBuildNumber == current.iosBuildNumber <==> r.iosVersion == current.iosVersion)
  {
  }

  // ---------------------------------------------------------------------
  // Checks, downgrades, tag and message
  // ---------------------------------------------------------------------

  /** Why the script stops with an error. */
  datatype Failure =
    | InvalidStructure
    | InvalidOldStructure
    | OtherFieldsChanged
    | BothFlavorsChanged
    | InvalidAndroidVersion
    | InvalidIosVersion
    | InvalidAndroidBuildNumber
    | InvalidIosBuildNumber
    /** `semver.lt` throwing `Invalid Version` on a current version that is
        not valid semver. */
    | CurrentAndroidVersionThrows
    | CurrentIosVersionThrows

  /** The checks on the new versions, in the script's order. */
  function Check(v: PlatformVersions, semverValid: string -> bool): (r: Option<Failure>)
    ensures r.None? <==>
      semverValid(v.androidVersion) && semverValid(v.iosVersion) &&
      IsInteger(v.androidBuildNumber) && 0.0 < v.androidBuildNumber <= 2100000000.0 &&
      IsInteger(v.iosBuildNumber) && 0.0 < v.iosBuildNumber
  {
    if !semverValid(v.androidVersion) then Some(InvalidAndroidVersion)
    else if !semverValid(v.iosVersion) then Some(InvalidIosVersion)
    else if !(IsInteger(v.androidBuildNumber) && v.androidBuildNumber > 0.0 && v.androidBuildNumber <= 2100000000.0) then
      Some(InvalidAndroidBuildNumber)
    else if !(IsInteger(v.iosBuildNumber) && v.iosBuildNumber > 0.0) then Some(InvalidIosBuildNumber)
    else None
  }

  /** `changedPlatform`: `undefined`, `'android'`, `'ios'` or `''`. */
  datatype Mark = Unmarked | MarkAndroid | MarkIos | MarkNone

  /** The four downgrade questions, in the order they are asked. */
  datatype Downgrades = Downgrades(androidVersion: bool, androidBuild: bool, iosVersion: bool, iosBuild: bool)

  function DowngradesOf(current: PlatformVersions, v: PlatformVersions, lt: (string, string) -> bool): Downgrades {
    Downgrades(lt(v.androidVersion, current.androidVersion), v.androidBuildNumber < current.androidBuildNumber,
               lt(v.iosVersion, current.iosVersion), v.iosBuildNumber < current.iosBuildNumber)
  }

  /** The questions asked before the iOS versions are compared: the two
      Android ones. */
  function AndroidDowngrades(current: PlatformVersions, v: PlatformVersions, lt: (string, string) -> bool): (r: Downgrades)
    ensures !r.iosVersion && !r.iosBuild
    ensures r.androidVersion == DowngradesOf(current, v, lt).androidVersion
    ensures r.androidBuild == DowngradesOf(current, v, lt).androidBuild
  {
    Downgrades(lt(v.androidVersion, current.androidVersion), v.androidBuildNumber < current.androidBuildNumber,
               false, false)
  }

  /** The mark after each confirmed downgrade, step by step as the script
      updates it. */
  function MarkAfter(d: Downgrades): Mark {
    var m1 := if d.androidVersion then MarkAndroid else Unmarked;
    var m2 := if d.androidBuild then MarkAndroid else m1;
    var m3 := if d.iosVersion then (if m2 == Unmarked then MarkIos else MarkNone) else m2;
    if d.iosBuild then (if m3 == MarkAndroid || m3 == MarkNone then MarkNone else MarkIos) else m3
  }

  /** The downgrade rule: an Android downgrade alone marks Android, an iOS
      downgrade alone marks iOS, both together leave the empty mark, and no
      downgrade leaves none. */
  lemma MarkMeaning(d: Downgrades)
    ensures var a := d.androidVersion || d.androidBuild;
            var i := d.iosVersion || d.iosBuild;
            MarkAfter(d) == if a && i then MarkNone else if a then MarkAndroid else if i then MarkIos else Unmarked
  {
  }

  /** How many questions are asked. */
  function Questions(d: Downgrades): nat {
    (if d.androidVersion then 1 else 0) + (if d.androidBuild then 1 else 0) +
    (if d.iosVersion then 1 else 0) + (if d.iosBuild then 1 else 0)
  }

  /** Answer `k` is `y` after trimming; a missing answer reads as empty. */
  predicate Confirmed(answers: seq<string>, k: nat) {
    k < |answers| && Trim(answers[k]) == "y"
  }

  /** The questions about the downgrades: returns whether every one asked was
      confirmed, and the mark they leave. */
  method ConfirmDowngrades(d: Downgrades, answers: seq<string>) returns (proceed: bool, mark: Mark)
    ensures proceed <==> forall k | 0 <= k < Questions(d) :: Confirmed(answers, k)
    ensures proceed ==> mark == MarkAfter(d)
  {
    var asked := 0;
    mark := Unmarked;
    if d.androidVersion {
      if !Confirmed(answers, asked) { return false, mark; }
      asked := asked + 1;
      mark := MarkAndroid;
    }
    if d.androidBuild {
      if !Confirmed(answers, asked) { return false, mark; }
      asked := asked + 1;
      mark := MarkAndroid;
    }
    if d.iosVersion {
      if !Confirmed(answers, asked) { return false, mark; }
      asked := asked + 1;
      mark := if mark == Unmarked then MarkIos else MarkNone;
    }
    if d.iosBuild {
      if !Confirmed(answers, asked) { return false, mark; }
      asked := asked + 1;
      mark := if mark == MarkAndroid || mark == MarkNone then MarkNone else MarkIos;
    }
    return true, mark;
  }

  /** The text of a truthy mark. */
  function MarkText(m: Mark): Option<string> {
    match m
    case MarkAndroid => Some("android")
    case MarkIos => Some("ios")
    case _ => None
  }

  /** `${n}` for a positive whole build number. */
  function BuildText(n: real): string
    requires IsInteger(n) && n > 0.0
  {
    NatToString(n.Floor)
  }

  /** The tag and message quote the Android version and build only when the
      mark is `'android'`; otherwise the iOS ones. */
  function TagVersion(m: Mark, v: PlatformVersions): (string, real) {
    if m == MarkAndroid then (v.androidVersion, v.androidBuildNumber) else (v.iosVersion, v.iosBuildNumber)
  }

  /** What follows the build in a tag: `-uat` for UAT, then the platform in
      parentheses when marked. */
  function TagSuffix(flavor: Flavor, m: Mark): string {
    (if flavor == Uat then "-uat" else "") + (if MarkText(m).Some? then "(" + MarkText(m).value + ")" else "")
  }

  /** The git tag: `v{version}/{build}` and the suffix. */
  function TagName(flavor: Flavor, m: Mark, v: PlatformVersions): string
    requires IsInteger(v.androidBuildNumber) && v.androidBuildNumber > 0.0
    requires IsInteger(v.iosBuildNumber) && v.iosBuildNumber > 0.0
  {
    var (version, build) := TagVersion(m, v);
    "v" + version + "/" + BuildText(build) + TagSuffix(flavor, m)
  }

  /** The commit message: `update {UAT|Production} [{platform} ]to v{version} ({build})`. */
  function Message(flavor: Flavor, m: Mark, v: PlatformVersions): string
    requires IsInteger(v.androidBuildNumber) && v.androidBuildNumber > 0.0
    requires IsInteger(v.iosBuildNumber) && v.iosBuildNumber > 0.0
  {
    var (version, build) := TagVersion(m, v);
    "update " + (if flavor == Uat then "UAT" else "Production") + " " +
    (if MarkText(m).Some? then MarkText(m).value + " " else "") +
    "to v" + version + " (" + BuildText(build) + ")"
  }

  /** A tag can be read back: it begins with `v`, the quoted version and the
      build, and what follows is `-uat` exactly for UAT and then the platform,
      named only for an `'android'` or `'ios'` mark. */
  lemma TagParts(flavor: Flavor, m: Mark, v: PlatformVersions)
    requires IsInteger(v.androidBuildNumber) && v.androidBuildNumber > 0.0
    requires IsInteger(v.iosBuildNumber) && v.iosBuildNumber > 0.0
    ensures var (version, build) := TagVersion(m, v);
            var head := "v" + version + "/" + BuildText(build);
            var tag := TagName(flavor, m, v);
            StartsWith(tag, head) &&
            tag[|head|..] == (if flavor == Uat then "-uat" else "") +
                             (if m == MarkAndroid then "(android)" else if m == MarkIos then "(ios)" else "")
  {
    var (version, build) := TagVersion(m, v);
    var head := "v" + version + "/" + BuildText(build);
    var rest := TagSuffix(flavor, m);
    assert TagName(flavor, m, v) == head + rest;
    assert (head + rest)[..|head|] == head && (head + rest)[|head|..] == rest;
  }

  // ---------------------------------------------------------------------
  // One run of the script
  // ---------------------------------------------------------------------

  /** The command line: a flavour with what to change, or `--sync` with the
      committed `version` object and whether app.json changed elsewhere. */
  datatype Mode =
    | FlavorMode(flavor: Flavor, input: VersionInput)
    | SyncMode(oldVersion: Json, otherFieldsChanged: bool)

  /** How a run ends. */
  datatype Outcome =
    | Failed(failure: Failure)
    | StillPrompting
    | NoChange
    | Declined
    | Written(flavor: Flavor, previous: PlatformVersions, versions: PlatformVersions, mark: Mark,
              tag: string, message: string)

  /** Flavour mode: the versions the command line or the prompt chooses,
      through the script's variables. */
  method ChooseVersions(current: PlatformVersions, input: VersionInput) returns (r: Option<PlatformVersions>)
    ensures r == Chosen(current, input)
  {
    var plan := new VersionPlan(current);
    match input {
      case Bump(target) =>
        plan.BumpBuildNumber(target);
      case SetVersions(v, a, i, answers) =>
        if !Given(v) && !Given(a) && !Given(i) {
          var line := FirstAnswer(answers);
          if line.None? {
            return None;
          }
          plan.ApplyAnswer(line.value);
        } else {
          plan.ApplyVersionFlags(v, a, i);
        }
        plan.BumpChangedBuilds(current);
    }
    return Some(plan.Current());
  }

  /** Sync mode: the flavour whose versions differ from the committed ones;
      an error when both do, and `prod` when neither does. */
  function SyncFlavor(version: Json, oldVersion: Json): (r: Result<Flavor, Failure>)
    requires VersionObjectValid(Some(version)) && VersionObjectValid(Some(oldVersion))
    ensures var uatChanged := !CompareObjects(FlavorFields(version, Uat), FlavorFields(oldVersion, Uat));
            var prodChanged := !CompareObjects(FlavorFields(version, Prod), FlavorFields(oldVersion, Prod));
            (r == Err(BothFlavorsChanged) <==> uatChanged && prodChanged) &&
            (r == Ok(Uat) <==> uatChanged && !prodChanged) &&
            (r == Ok(Prod) <==> !uatChanged)
  {
    var uatChanged := !CompareObjects(FlavorFields(version, Uat), FlavorFields(oldVersion, Uat));
    var prodChanged := !CompareObjects(FlavorFields(version, Prod), FlavorFields(oldVersion, Prod));
    if uatChanged && prodChanged then Err(BothFlavorsChanged)
    else if uatChanged then Ok(Uat) else Ok(Prod)
  }

  /** The common end of both modes: the checks, the no-change exit, the
      downgrade questions, and the tag and message. `currentFields` is the
      flavour object the new versions are compared with. `semver.lt` throws
      when a current version is not valid semver: the Android one is compared
      before any question, the iOS one after the Android questions. */
  method Conclude(flavor: Flavor, current: PlatformVersions, currentFields: seq<Field>, chosen: PlatformVersions,
                  semverValid: string -> bool, lt: (string, string) -> bool, confirmations: seq<string>)
    returns (r: Outcome)
    ensures Check(chosen, semverValid).Some? ==> r == Failed(Check(chosen, semverValid).value)
    ensures Check(chosen, semverValid).None? && CompareObjects(currentFields, Encode(chosen)) ==> r == NoChange
    ensures r == Failed(CurrentAndroidVersionThrows) <==>
      Check(chosen, semverValid).None? && !CompareObjects(currentFields, Encode(chosen)) &&
      !semverValid(current.androidVersion)
    ensures r == Failed(CurrentIosVersionThrows) <==>
      Check(chosen, semverValid).None? && !CompareObjects(currentFields, Encode(chosen)) &&
      semverValid(current.androidVersion) && !semverValid(current.iosVersion) &&
      forall k | 0 <= k < Questions(AndroidDowngrades(current, chosen, lt)) :: Confirmed(confirmations, k)
    ensures r.Declined? <==>
      Check(chosen, semverValid).None? && !CompareObjects(currentFields, Encode(chosen)) &&
      semverValid(current.androidVersion) &&
      exists k | 0 <= k < Questions(if semverValid(current.iosVersion) then DowngradesOf(current, chosen, lt)
                                    else AndroidDowngrades(current, chosen, lt)) :: !Confirmed(confirmations, k)
    ensures r.Failed? || r.NoChange? || r.Declined? || r.Written?
    ensures r.Written? <==>
      Check(chosen, semverValid).None? && !CompareObjects(currentFields, Encode(chosen)) &&
      semverValid(current.androidVersion) && semverValid(current.iosVersion) &&
      forall k | 0 <= k < Questions(DowngradesOf(current, chosen, lt)) :: Confirmed(confirmations, k)
    ensures r.Written? ==>
      r.flavor == flavor && r.previous == current && r.versions == chosen &&
      r.mark == MarkAfter(DowngradesOf(current, chosen, lt)) &&
      r.tag == TagName(flavor, r.mark, chosen) && r.message == Message(flavor, r.mark, chosen)
  {
    var failure := Check(chosen, semverValid);
    if failure.Some? {
      return Failed(failure.value);
    }
    if CompareObjects(currentFields, Encode(chosen)) {
      return NoChange;
    }
    if !semverValid(current.androidVersion) {
      return Failed(CurrentAndroidVersionThrows);
    }
    if !semverValid(current.iosVersion) {
      var proceedAndroid, _ := ConfirmDowngrades(AndroidDowngrades(current, chosen, lt), confirmations);
      if !proceedAndroid {
        return Declined;
      }
      return Failed(CurrentIosVersionThrows);
    }
    var proceed, mark := ConfirmDowngrades(DowngradesOf(current, chosen, lt), confirmations);
    if !proceed {
      return Declined;
    }
    return Written(flavor, current, chosen, mark, TagName(flavor, mark, chosen), Message(flavor, mark, chosen));
  }

  /** One run on the `version` object of app.json, up to the point where the
      files would be written. */
  method Release(version: Json, mode: Mode, semverValid: string -> bool, lt: (string, string) -> bool,
                 confirmations: seq<string>)
    returns (r: Outcome)
    ensures !VersionObjectValid(Some(version)) ==> r == Failed(InvalidStructure)
    ensures r.StillPrompting? ==> mode.FlavorMode? && mode.input.SetVersions?
    ensures r.Written? ==>
      VersionObjectValid(Some(version)) && Check(r.versions, semverValid).None? &&
      semverValid(r.previous.androidVersion) && semverValid(r.previous.iosVersion) &&
      (forall k | 0 <= k < Questions(DowngradesOf(r.previous, r.versions, lt)) :: Confirmed(confirmations, k)) &&
      r.mark == MarkAfter(DowngradesOf(r.previous, r.versions, lt)) &&
      r.tag == TagName(r.flavor, r.mark, r.versions) &&
      r.message == Message(r.flavor, r.mark, r.versions)
    ensures r.Written? && mode.FlavorMode? ==>
      r.flavor == mode.flavor && r.previous == Decode(version, mode.flavor) &&
      Chosen(r.previous, mode.input) == Some(r.versions) &&
      !CompareObjects(FlavorFields(version, r.flavor), Encode(r.versions))
    ensures r.Written? && mode.SyncMode? ==>
      VersionObjectValid(Some(mode.oldVersion)) && !mode.otherFieldsChanged &&
      SyncFlavor(version, mode.oldVersion) == Ok(r.flavor) &&
      r.previous == Decode(mode.oldVersion, r.flavor) && r.versions == Decode(version, r.flavor) &&
      !CompareObjects(FlavorFields(mode.oldVersion, r.flavor), Encode(r.versions))
  {
    var ok := ValidateVersionObject(Some(version));
    if !ok {
      return Failed(InvalidStructure);
    }
    match mode {
      case FlavorMode(f, input) =>
        var current := Decode(version, f);
        var chosen := ChooseVersions(current, input);
        if chosen.None? {
          return StillPrompting;
        }
        r := Conclude(f, current, FlavorFields(version, f), chosen.value, semverValid, lt, confirmations);
      case SyncMode(oldVersion, otherFieldsChanged) =>
        var oldOk := ValidateVersionObject(Some(oldVersion));
        if !oldOk {
          return Failed(InvalidOldStructure);
        }
        if otherFieldsChanged {
          return Failed(OtherFieldsChanged);
        }
        var flavor := SyncFlavor(version, oldVersion);
        if flavor.Err? {
          return Failed(flavor.error);
        }
        var f := flavor.value;
        r := Conclude(f, Decode(oldVersion, f), FlavorFields(oldVersion, f), Decode(version, f),
                      semverValid, lt, confirmations);
    }
  }
}
