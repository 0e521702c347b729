/** kodi_game_scripting/process_game_addons.py: one Kodi game add-on (`KodiGameAddon`), its
    version and metadata, and the order in which `KodiGameAddons` works through them. */
module GameAddons {
  import opened Wrappers
  import opened Text
  import Utils
  import TemplateProcessor
  import GitAccess
  import Shlex

  /** `config.GITHUB_ADDON_PREFIX`. */
  const AddonPrefix: string := "game.libretro."

  /** `COMMIT_MSG`. */
  const CommitMessage: string := "Updated by kodi-game-scripting\n\nhttps://github.com/fetzerch/kodi-game-scripting/"

  /** The exceptions the add-on methods let through. */
  datatype Failure = ValueError | IndexError | GitFailure(cause: GitAccess.Failure)

  // ===========================================================================
  // Versions

  /** The length of the run of digits `s` starts with. */
  function DigitRun(s: string): (k: nat)
    ensures k <= |s|
  {
    if s != [] && IsDigit(s[0]) then DigitRun(s[1..]) + 1 else 0
  }

  lemma {:induction false} DigitRunIsDigits(s: string)
    ensures AllDigits(s[..DigitRun(s)])
    ensures DigitRun(s) < |s| ==> !IsDigit(s[DigitRun(s)])
  {
    if s != [] && IsDigit(s[0]) {
      DigitRunIsDigits(s[1..]);
      var k := DigitRun(s[1..]);
      assert s[..k + 1] == [s[0]] + s[1..][..k];
    }
  }

  /** The regular expression `(?:[0-9]+\.){groups}([0-9]+)` matched at the start of `s`,
      giving the captured group. Each digit run is matched whole, so no backtracking. */
  function MatchRevision(s: string, groups: nat): Option<string>
    decreases groups
  {
    var k := DigitRun(s);
    if k == 0 then None
    else if groups == 0 then Some(s[..k])
    else if k < |s| && s[k] == '.' then MatchRevision(s[k + 1..], groups - 1)
    else None
  }

  lemma {:induction false} MatchRevisionNumeral(s: string, groups: nat)
    ensures MatchRevision(s, groups).Some? ==> IsNumeral(MatchRevision(s, groups).value)
    decreases groups
  {
    var k := DigitRun(s);
    DigitRunIsDigits(s);
    if k != 0 && groups != 0 && k < |s| && s[k] == '.' {
      MatchRevisionNumeral(s[k + 1..], groups - 1);
    }
  }

  /** `load_game_version`: the fourth dotted number a `git describe` string starts with,
      or `-1` when there is none. */
  function PackageRevision(describe: string): (r: string)
    ensures r == "-1" || IsNumeral(r)
  {
    MatchRevisionNumeral(describe, 3);
    match MatchRevision(describe, 3)
    case Some(v) => v
    case None => "-1"
  }

  lemma {:induction false} DigitRunOf(a: string, rest: string)
    requires AllDigits(a)
    requires rest == [] || !IsDigit(rest[0])
    ensures DigitRun(a + rest) == |a|
    decreases |a|
  {
    if a != [] {
      assert (a + rest)[0] == a[0];
      assert (a + rest)[1..] == a[1..] + rest;
      DigitRunOf(a[1..], rest);
    } else {
      assert a + rest == rest;
    }
  }

  lemma MatchGroup(a: string, tail: string, groups: nat)
    requires IsNumeral(a)
    ensures MatchRevision(a + "." + tail, groups + 1) == MatchRevision(tail, groups)
  {
    var s := a + "." + tail;
    assert s == a + ("." + tail);
    DigitRunOf(a, "." + tail);
    assert s[|a|] == '.' && s[|a| + 1..] == tail;
  }

  lemma MatchLastGroup(r: string, rest: string)
    requires IsNumeral(r)
    requires rest == [] || !IsDigit(rest[0])
    ensures MatchRevision(r + rest, 0) == Some(r)
  {
    DigitRunOf(r, rest);
    assert (r + rest)[..|r|] == r;
  }

  /** A describe string made of four dotted numbers and something that does not continue
      the last one yields that last number. */
  lemma PackageRevisionOf(a: string, b: string, c: string, r: string, rest: string)
    requires IsNumeral(a) && IsNumeral(b) && IsNumeral(c) && IsNumeral(r)
    requires rest == [] || !IsDigit(rest[0])
    ensures PackageRevision(a + "." + b + "." + c + "." + r + rest) == r
  {
    Regroup(a, b, c, r, rest);
    var t3 := r + rest;
    var t2 := c + "." + t3;
    var t1 := b + "." + t2;
    var s := a + "." + t1;
    MatchLastGroup(r, rest);
    MatchGroup(c, t3, 0);
    MatchGroup(b, t2, 1);
    MatchGroup(a, t1, 2);
  }

  lemma Regroup(a: string, b: string, c: string, r: string, rest: string)
    ensures a + "." + b + "." + c + "." + r + rest == a + "." + (b + "." + (c + "." + (r + rest)))
  {
  }

  /** A describe string that does not start with a digit has no package revision. */
  lemma PackageRevisionNone(describe: string)
    requires describe == [] || !IsDigit(describe[0])
    ensures PackageRevision(describe) == "-1"
  {
  }

  /** `info['game']['version']` after `load_game_version`: the add-on version computed from
      the core's version, a dot, and the package revision. */
  function GameVersion(addonVersion: string, describe: string): string {
    addonVersion + "." + PackageRevision(describe)
  }

  /** `1.2.3.4-2-g1234567` (two commits after release `1.2.3.4`) gives version `1.2.3.4`. */
  lemma GameVersionExample(describe: string, rest: string)
    requires describe == "1.2.3.4" + rest && (rest == [] || !IsDigit(rest[0]))
    ensures GameVersion("1.2.3", describe) == "1.2.3.4"
  {
    var release := "1" + "." + "2" + "." + "3" + "." + "4";
    assert release == "1.2.3.4";
    PackageRevisionOf("1", "2", "3", "4", rest);
  }

  lemma GameVersionInitialExample()
    ensures GameVersion("1.2.3", "g1234567") == "1.2.3.-1"
  {
    PackageRevisionNone("g1234567");
  }

  /** `bump_version`: the text after the last dot, read as an integer, plus one. A version
      without a dot fails to unpack and a last component that is not an integer fails to
      convert; both raise `ValueError`. */
  function BumpedVersion(version: string): Result<string, Failure> {
    match RSplitOnce(version, '.')
    case None => Err(ValueError)
    case Some(parts) =>
      match ParseInt(parts.1)
      case None => Err(ValueError)
      case Some(n) => Ok(parts.0 + "." + IntToString(n + 1))
  }

  lemma NoDotInNumber(i: int)
    ensures '.' !in IntToString(i)
  {
    var s := IntToString(i);
    if i < 0 {
      var t := NatToString(-i);
      assert s == "-" + t;
      forall j | 0 <= j < |s| ensures s[j] != '.' {
        if j > 0 {
          assert s[j] == t[j - 1];
        }
      }
    }
  }

  /** The prefix stays and the last component goes up by one. */
  lemma BumpVersionOf(prefix: string, n: int)
    ensures BumpedVersion(prefix + "." + IntToString(n)) == Ok(prefix + "." + IntToString(n + 1))
  {
    NoDotInNumber(n);
    RSplitOnceOfJoin(prefix, '.', IntToString(n));
    ParseIntIntToString(n);
  }

  lemma BumpVersionNoDot(version: string)
    requires '.' !in version
    ensures BumpedVersion(version) == Err(ValueError)
  {
  }

  lemma MinusOneAndZero()
    ensures IntToString(-1) == "-1" && IntToString(0) == "0"
  {
    assert NatToString(1) == [DigitChar(1)];
    assert NatToString(0) == [DigitChar(0)];
    assert IntToString(-1) == "-" + NatToString(1);
  }

  /** The first release after `load_game_version` found none: `X.-1` becomes `X.0`. */
  lemma BumpInitialVersion(prefix: string)
    ensures BumpedVersion(prefix + ".-1") == Ok(prefix + ".0")
  {
    var u := prefix + "." + IntToString(-1);
    var w := prefix + "." + IntToString(0);
    MinusOneAndZero();
    assert u == prefix + ".-1" by { assert prefix + "." + "-1" == prefix + ".-1"; }
    assert w == prefix + ".0" by { assert prefix + "." + "0" == prefix + ".0"; }
    BumpVersionOf(prefix, -1);
    assert BumpedVersion(u) == Ok(w);
  }

  /** `tag`: the release tag of a version. */
  function TagName(version: string): string {
    version + "-Leia"
  }

  /** The revision `load_game_version` reads back from the tag of a version with four
      numbers is that version's last number. */
  lemma TagNameRevision(a: string, b: string, c: string, r: string)
    requires IsNumeral(a) && IsNumeral(b) && IsNumeral(c) && IsNumeral(r)
    ensures PackageRevision(TagName(a + "." + b + "." + c + "." + r)) == r
  {
    PackageRevisionOf(a, b, c, r, "-Leia");
  }

  /** The revision after `rev`: 0 after none (`-1`), otherwise the next number. */
  function NextRevision(rev: string): nat
    requires rev == "-1" || IsNumeral(rev)
  {
    if rev == "-1" then 0 else ValueOf(rev) + 1
  }

  /** Bumping a version whose last component is a package revision (`-1` or a numeral)
      gives the next revision. */
  lemma BumpRevision(av: string, rev: string)
    requires rev == "-1" || IsNumeral(rev)
    ensures BumpedVersion(av + "." + rev) == Ok(av + "." + NatToString(NextRevision(rev)))
  {
    var n: int := if rev == "-1" then -1 else ValueOf(rev);
    assert '.' !in rev by {
      if rev != "-1" {
        assert forall j :: 0 <= j < |rev| ==> IsDigit(rev[j]);
      }
    }
    RSplitOnceOfJoin(av, '.', rev);
    assert av + "." + rev == av + ['.'] + rev;
    if rev == "-1" {
      MinusOneAndZero();
      ParseIntIntToString(-1);
    } else {
      ParseIntNumeral(rev);
    }
    assert IntToString(n + 1) == NatToString(n + 1);
  }

  lemma BumpGameVersion(av: string, describe: string)
    ensures BumpedVersion(GameVersion(av, describe)) == Ok(av + "." + NatToString(NextRevision(PackageRevision(describe))))
  {
    BumpRevision(av, PackageRevision(describe));
  }

  /** One release cycle: with an add-on version of three numbers, the version loaded from
      `git describe`, bumped and tagged carries the next package revision, starting from 0
      when the repository had no release tag. */
  lemma ReleaseCycle(a: string, b: string, c: string, describe: string)
    requires IsNumeral(a) && IsNumeral(b) && IsNumeral(c)
    ensures var bumped := BumpedVersion(GameVersion(a + "." + b + "." + c, describe));
            bumped.Ok? && PackageRevision(TagName(bumped.value)) == NatToString(NextRevision(PackageRevision(describe)))
  {
    BumpGameVersion(a + "." + b + "." + c, describe);
    TagNameRevision(a, b, c, NatToString(NextRevision(PackageRevision(describe))));
  }

  // ===========================================================================
  // Branch and tags

  /** `info['game']['branch']`: the push branch, or `master` when none (or an empty one) is
      given. */
  function Branch(pushBranch: Option<string>): (b: string)
    ensures b != ""
    ensures pushBranch.Some? && pushBranch.value != "" ==> b == pushBranch.value
  {
    if pushBranch.Some? && pushBranch.value != "" then pushBranch.value else "master"
  }

  /** `push`: tags go along exactly when pushing to `master`. */
  predicate PushesTags(branch: string) { branch == "master" }

  /** An add-on either pushes `master` with its tags and without force, or another branch by
      force and without tags. */
  lemma PushModes(g: GitAccess.RepoState, pushBranch: Option<string>)
    requires !GitAccess.IsDirty(g) && g.origin.Some?
    ensures var b := Branch(pushBranch);
            var o := GitAccess.PushBranch(g, b, PushesTags(b));
            o.error.None? &&
            (b == "master" ==> o.state.pushes == g.pushes + [GitAccess.PushRef("HEAD:master", false), GitAccess.PushTags]) &&
            (b != "master" ==> o.state.pushes == g.pushes + [GitAccess.PushRef("HEAD:" + b, true)])
  {
    var b := Branch(pushBranch);
    if b == "master" {
      assert "HEAD:" + b == "HEAD:master";
      var x := GitAccess.PushRef("HEAD:master", false);
      assert g.pushes + [x] + [GitAccess.PushTags] == g.pushes + [x, GitAccess.PushTags];
    }
  }

  // ===========================================================================
  // The info record

  /** One entry of `config.ADDONS`: the libretro repository, makefile, makefile directory,
      JNI directory and the options dictionary. */
  datatype AddonConfig = AddonConfig(repo: string, makefile: string, makefileDir: string, jni: string,
                                     options: map<string, string>)

  datatype GameInfo = GameInfo(name: string, addon: string, branch: string, version: string)
  datatype LibretroRepo = LibretroRepo(name: string, branch: string, hexsha: string)
  datatype Makefile = Makefile(file: string, dir: string, jni: string)
  datatype Library = Library(file: string, loaded: bool, soname: string, jnisoname: string)

  /** `info['assets']`: each key present only once it is set. */
  datatype Assets = Assets(icon: Option<string>, fanart: Option<string>, screenshots: Option<seq<string>>)

  /** `self.info`. `diff` is `info['git']['diff']`, absent until the first commit. */
  datatype Info = Info(game: GameInfo, options: map<string, string>, datetime: string, systemVersion: string,
                       libretroInfo: map<string, string>, libretroRepo: LibretroRepo, makefile: Makefile,
                       library: Library, assets: Assets, diff: Option<GitAccess.DiffText>)

  function OptionOr(options: map<string, string>, key: string, default: string): string {
    if key in options then options[key] else default
  }

  /** The record `KodiGameAddon.__init__` builds; `now` is the formatted time stamp and
      `ext` the library suffix of the platform. */
  function InitialInfo(addonName: string, gameName: string, pushBranch: Option<string>, cfg: AddonConfig,
                       now: string, ext: string): Info {
    Info(GameInfo(gameName, addonName, Branch(pushBranch), "0.0.0"),
         cfg.options, now, "0.0.0", map[],
         LibretroRepo(cfg.repo, OptionOr(cfg.options, "branch", "master"), ""),
         Makefile(cfg.makefile, cfg.makefileDir, cfg.jni),
         Library(JoinPath(JoinPath("install", addonName), addonName + "." + ext), false,
                 OptionOr(cfg.options, "soname", gameName) + "_libretro",
                 OptionOr(cfg.options, "jnisoname", "libretro")),
         Assets(None, None, None), None)
  }

  /** The defaults: an unset `soname` is the game name, `jnisoname` is `libretro`, the
      libretro branch is `master`; versions start at `0.0.0`, nothing is loaded yet. */
  lemma InitialDefaults(addonName: string, gameName: string, pushBranch: Option<string>, cfg: AddonConfig,
                        now: string, ext: string)
    ensures var info := InitialInfo(addonName, gameName, pushBranch, cfg, now, ext);
            info.game.version == "0.0.0" && info.systemVersion == "0.0.0" && !info.library.loaded &&
            info.libretroInfo == map[] && info.assets == Assets(None, None, None) && info.diff.None? &&
            info.libretroRepo.hexsha == "" &&
            ("soname" !in cfg.options ==> info.library.soname == gameName + "_libretro") &&
            ("soname" in cfg.options ==> info.library.soname == cfg.options["soname"] + "_libretro") &&
            ("jnisoname" !in cfg.options ==> info.library.jnisoname == "libretro") &&
            ("branch" !in cfg.options ==> info.libretroRepo.branch == "master") &&
            (pushBranch.None? ==> info.game.branch == "master")
  {
  }

  /** The library is installed as `install/<add-on>/<add-on>.<ext>`, as in
      `install/game.libretro.nes/game.libretro.nes.so`. */
  lemma LibraryFileOf(addonName: string, gameName: string, pushBranch: Option<string>, cfg: AddonConfig,
                      now: string, ext: string)
    requires addonName != [] && '/' !in addonName
    ensures InitialInfo(addonName, gameName, pushBranch, cfg, now, ext).library.file
         == "install/" + addonName + "/" + addonName + "." + ext
  {
    var d := JoinPath("install", addonName);
    assert addonName[0] in addonName;
    assert d == "install" + "/" + addonName;
    assert d[|d| - 1] == addonName[|addonName| - 1] && d[|d| - 1] in addonName;
    var f := addonName + "." + ext;
    assert f[0] == addonName[0];
    assert JoinPath(d, f) == d + "/" + f;
    assert "install" + "/" == "install/";
  }

  // ---------------------------------------------------------------------------
  // load_info_file

  /** The first shell word of `s`; `shlex` errors raise `ValueError`, no word raises
      `IndexError`. */
  function FirstWord(s: string): Result<string, Failure> {
    match Shlex.Split(s)
    case Err(_) => Err(ValueError)
    case Ok(words) => if words == [] then Err(IndexError) else Ok(words[0])
  }

  function EntryKey(line: string): string { Strip(Partition(line, '=').0) }

  function EntryValue(line: string): Result<string, Failure> { FirstWord(Partition(line, '=').1) }

  predicate SetsKey(line: string, key: string) { '=' in line && EntryKey(line) == key }

  /** One line of the info file applied to `libretro_info`. */
  function InfoLine(m: map<string, string>, line: string): Result<map<string, string>, Failure> {
    if '=' !in line then Ok(m)
    else match EntryValue(line)
      case Err(e) => Err(e)
      case Ok(v) => Ok(m[EntryKey(line) := v])
  }

  /** `libretro_info` after reading `lines` from `m` on, and the exception that stopped the
      loop (the entries of the earlier lines stay). */
  datatype Loaded = Loaded(entries: map<string, string>, error: Option<Failure>)

  function LoadedInfo(m: map<string, string>, lines: seq<string>): Loaded {
    if lines == [] then Loaded(m, None)
    else
      var before := LoadedInfo(m, lines[..|lines| - 1]);
      if before.error.Some? then before
      else match InfoLine(before.entries, lines[|lines| - 1])
        case Err(e) => Loaded(before.entries, Some(e))
        case Ok(m') => Loaded(m', None)
  }

  /** A key no line sets keeps whatever it had. */
  lemma {:induction false} LoadedInfoUntouched(m: map<string, string>, lines: seq<string>, key: string)
    requires forall j :: 0 <= j < |lines| ==> !SetsKey(lines[j], key)
    ensures var e := LoadedInfo(m, lines).entries;
            (key in e <==> key in m) && (key in m ==> e[key] == m[key])
  {
    if lines != [] {
      LoadedInfoUntouched(m, lines[..|lines| - 1], key);
    }
  }

  /** When the whole file is read, a key holds the value of the last line that sets it. */
  lemma {:induction false} LoadedInfoLastWins(m: map<string, string>, lines: seq<string>, j: nat, key: string)
    requires LoadedInfo(m, lines).error.None?
    requires j < |lines| && SetsKey(lines[j], key)
    requires forall i :: j < i < |lines| ==> !SetsKey(lines[i], key)
    ensures var e := LoadedInfo(m, lines).entries;
            key in e && EntryValue(lines[j]) == Ok(e[key])
  {
    var init := lines[..|lines| - 1];
    var before := LoadedInfo(m, init);
    assert before.error.None?;
    if j < |lines| - 1 {
      LoadedInfoLastWins(m, init, j, key);
    }
  }

  /** A line holding `=` but no word after it stops the loop with `IndexError`. */
  lemma LoadedInfoEmptyValue(m: map<string, string>, key: string)
    requires '=' !in key
    ensures LoadedInfo(m, [key + "=\n"]) == Loaded(m, Some(IndexError))
  {
    var line := key + "=\n";
    assert line == key + ['='] + "\n";
    assert line[|key|] == '=';
    assert Partition(line, '=').1 == "\n";
    Shlex.SplitBlank("\n");
    assert [line][..0] == [];
  }

  // ---------------------------------------------------------------------------
  // load_assets

  predicate IsImage(p: string) { TemplateProcessor.SplitExt(p).1 in [".png", ".jpg", ".svg"] }

  /** One file of the listing; `dir` is the directory the comparison expects the
      `resources` files in. An image that matches none of the three names is only
      reported. */
  function AssetStep(a: Assets, dir: string, p: string): Assets {
    if !IsImage(p) then a
    else if p == JoinPath(dir, "icon.png") then a.(icon := Some("resources/icon.png"))
    else if p == JoinPath(dir, "fanart.jpg") then a.(fanart := Some("resources/fanart.jpg"))
    else if StartsWith(p, JoinPath(dir, "screenshot")) then
      a.(screenshots := Some(a.screenshots.GetOr([]) + [JoinPath("resources", TemplateProcessor.BaseName(p))]))
    else a
  }

  function AssetsAfter(a: Assets, dir: string, files: seq<string>): Assets {
    if files == [] then a else AssetStep(AssetsAfter(a, dir, files[..|files| - 1]), dir, files[|files| - 1])
  }

  /** `load_assets` over a sorted listing of the checkout: the comparison is against paths
      under `<add-on name>/resources`. */
  function AssetsOf(a: Assets, name: string, files: seq<string>): Assets {
    AssetsAfter(a, ResourcesDir(name), files)
  }

  /** The directory and the three names the comparison looks for. */
  function ResourcesDir(name: string): string { JoinPath(name, "resources") }
  function IconFile(name: string): string { JoinPath(ResourcesDir(name), "icon.png") }
  function FanartFile(name: string): string { JoinPath(ResourcesDir(name), "fanart.jpg") }
  function ScreenshotPrefix(name: string): string { JoinPath(ResourcesDir(name), "screenshot") }

  /** The values recorded in `info['assets']`, relative to the add-on directory. */
  const IconPath: string := "resources/icon.png"
  const FanartPath: string := "resources/fanart.jpg"

  /** A file the comparison against `dir` records as a screenshot. */
  predicate IsScreenshot(dir: string, p: string) {
    IsImage(p) && p != JoinPath(dir, "icon.png") && p != JoinPath(dir, "fanart.jpg") &&
    StartsWith(p, JoinPath(dir, "screenshot"))
  }

  /** The screenshots a listing yields, in listing order. */
  function Screenshots(dir: string, files: seq<string>): seq<string> {
    if files == [] then []
    else
      var p := files[|files| - 1];
      Screenshots(dir, files[..|files| - 1]) +
      (if IsScreenshot(dir, p) then ["resources/" + TemplateProcessor.BaseName(p)] else [])
  }

  /** `dir/name.ext` with one of the three image extensions is an image. */
  lemma ImageIn(p: string, dir: string, name: string, ext: string)
    requires name != [] && name[0] != '.' && '/' !in name
    requires ext in [".png", ".jpg", ".svg"]
    requires p == dir + "/" + name + ext
    ensures IsImage(p)
  {
    TemplateProcessor.BaseNameOf(dir, name);
    assert TemplateProcessor.BaseName(dir + "/" + name)[0] != '.';
    TemplateProcessor.SplitExtOf(dir + "/" + name, ext);
  }

  /** The joined names are `<dir>/icon.png` and so on: `<dir>` always ends in `resources`. */
  lemma ResourceFiles(name: string)
    ensures ResourcesDir(name) != [] && ResourcesDir(name)[|ResourcesDir(name)| - 1] != '/'
    ensures IconFile(name) == ResourcesDir(name) + "/icon.png"
    ensures FanartFile(name) == ResourcesDir(name) + "/fanart.jpg"
    ensures ScreenshotPrefix(name) == ResourcesDir(name) + "/screenshot"
  {
    var dir := ResourcesDir(name);
    assert dir == name + "/resources" || dir == name + "resources";
    assert dir[|dir| - 1] == 's';
  }

  /** The icon and fan art names are images, and they differ. */
  lemma IconFanartImages(name: string)
    ensures IsImage(IconFile(name)) && IsImage(FanartFile(name))
    ensures IconFile(name) != FanartFile(name)
  {
    ResourceFiles(name);
    var dir := ResourcesDir(name);
    ImageIn(IconFile(name), dir, "icon", ".png");
    ImageIn(FanartFile(name), dir, "fanart", ".jpg");
    assert |IconFile(name)| != |FanartFile(name)|;
  }

  lemma ResourceOf(p: string)
    ensures JoinPath("resources", TemplateProcessor.BaseName(p)) == "resources/" + TemplateProcessor.BaseName(p)
  {
    var base := TemplateProcessor.BaseName(p);
    TemplateProcessor.BaseNameHasNoSlash(p);
    assert |base| > 0 ==> base[0] in base;
    assert "resources" + "/" + base == "resources/" + base;
  }

  /** One file sets the icon exactly when it is `<name>/resources/icon.png`; likewise the
      fan art. */
  lemma AssetStepIconFanart(a: Assets, name: string, p: string)
    ensures AssetStep(a, ResourcesDir(name), p).icon == (if p == IconFile(name) then Some(IconPath) else a.icon)
    ensures AssetStep(a, ResourcesDir(name), p).fanart == (if p == FanartFile(name) then Some(FanartPath) else a.fanart)
  {
    IconFanartImages(name);
  }

  /** The icon is set exactly when `<name>/resources/icon.png` is listed; likewise the fan
      art. */
  lemma {:induction false} AssetsIconFanart(a: Assets, name: string, files: seq<string>)
    ensures AssetsOf(a, name, files).icon == (if IconFile(name) in files then Some(IconPath) else a.icon)
    ensures AssetsOf(a, name, files).fanart == (if FanartFile(name) in files then Some(FanartPath) else a.fanart)
  {
    if files != [] {
      var init := files[..|files| - 1];
      var p := files[|files| - 1];
      AssetsIconFanart(a, name, init);
      var before := AssetsOf(a, name, init);
      assert AssetsOf(a, name, files) == AssetStep(before, ResourcesDir(name), p);
      AssetStepIconFanart(before, name, p);
      assert files == init + [p];
      assert IconFile(name) in files <==> IconFile(name) in init || p == IconFile(name);
      assert FanartFile(name) in files <==> FanartFile(name) in init || p == FanartFile(name);
    }
  }

  /** One file adds a screenshot exactly when it is one. */
  lemma AssetStepScreenshot(a: Assets, dir: string, p: string)
    ensures AssetStep(a, dir, p).screenshots ==
            (if IsScreenshot(dir, p) then Some(a.screenshots.GetOr([]) + ["resources/" + TemplateProcessor.BaseName(p)])
             else a.screenshots)
  {
    ResourceOf(p);
  }

  /** Appending `add` to a list that collects `prev` collects `prev + add`. */
  lemma AppendShots(s: Option<seq<string>>, prev: seq<string>, add: seq<string>,
                    before: Option<seq<string>>, after: Option<seq<string>>)
    requires before == (if prev == [] then s else Some(s.GetOr([]) + prev))
    requires after == (if add == [] then before else Some(before.GetOr([]) + add))
    ensures after == (if prev + add == [] then s else Some(s.GetOr([]) + (prev + add)))
  {
    if add == [] {
      assert prev + add == prev;
    } else if prev == [] {
      assert prev + add == add;
    } else {
      assert s.GetOr([]) + prev + add == s.GetOr([]) + (prev + add);
    }
  }

  /** Screenshots are appended in listing order, and the key appears only with the first;
      `AssetsOf` is the case `dir == ResourcesDir(name)`. */
  lemma {:induction false} AssetsScreenshots(a: Assets, dir: string, files: seq<string>)
    ensures AssetsAfter(a, dir, files).screenshots ==
            (if Screenshots(dir, files) == [] then a.screenshots
             else Some(a.screenshots.GetOr([]) + Screenshots(dir, files)))
  {
    if files != [] {
      var init := files[..|files| - 1];
      var p := files[|files| - 1];
      AssetsScreenshots(a, dir, init);
      var before := AssetsAfter(a, dir, init);
      assert AssetsAfter(a, dir, files) == AssetStep(before, dir, p);
      AssetStepScreenshot(before, dir, p);
      var add := if IsScreenshot(dir, p) then ["resources/" + TemplateProcessor.BaseName(p)] else [];
      assert Screenshots(dir, files) == Screenshots(dir, init) + add;
      AppendShots(a.screenshots, Screenshots(dir, init), add, before.screenshots, AssetStep(before, dir, p).screenshots);
    }
  }

  lemma JoinUnder(dir: string, f: string)
    requires dir != [] && dir[|dir| - 1] != '/'
    requires f != [] && f[0] != '/'
    ensures JoinPath(dir, f) == dir + "/" + f
  {
  }

  /** `<dir>/screenshot<suffix>.jpg` is an image named `screenshot<suffix>.jpg`. */
  lemma ScreenshotImage(dir: string, suffix: string, p: string)
    requires '/' !in suffix
    requires p == dir + "/screenshot" + suffix + ".jpg"
    ensures IsImage(p)
    ensures TemplateProcessor.BaseName(p) == "screenshot" + suffix + ".jpg"
  {
    var stem := "screenshot" + suffix;
    assert '/' !in stem && '/' !in stem + ".jpg";
    assert p == dir + "/" + stem + ".jpg";
    ImageIn(p, dir, stem, ".jpg");
    assert p == dir + "/" + (stem + ".jpg");
    TemplateProcessor.BaseNameOf(dir, stem + ".jpg");
  }

  /** `<dir>/screenshot<suffix>.jpg` is neither the icon nor the fan art, and it starts
      with the screenshot prefix. */
  lemma ScreenshotName(dir: string, suffix: string, p: string)
    requires dir != [] && dir[|dir| - 1] != '/'
    requires p == dir + "/screenshot" + suffix + ".jpg"
    ensures p != JoinPath(dir, "icon.png") && p != JoinPath(dir, "fanart.jpg")
    ensures StartsWith(p, JoinPath(dir, "screenshot"))
  {
    JoinUnder(dir, "icon.png");
    JoinUnder(dir, "fanart.jpg");
    JoinUnder(dir, "screenshot");
    var at := |dir| + 1;
    assert p[at] == 's' && (dir + "/icon.png")[at] == 'i' && (dir + "/fanart.jpg")[at] == 'f';
    assert p == (dir + "/screenshot") + (suffix + ".jpg");
  }

  /** `<dir>/screenshot<suffix>.jpg` is a screenshot, recorded as
      `resources/screenshot<suffix>.jpg`. */
  lemma ScreenshotAt(dir: string, suffix: string, p: string)
    requires dir != [] && dir[|dir| - 1] != '/'
    requires '/' !in suffix
    requires p == dir + "/screenshot" + suffix + ".jpg"
    ensures IsScreenshot(dir, p)
    ensures TemplateProcessor.BaseName(p) == "screenshot" + suffix + ".jpg"
  {
    ScreenshotName(dir, suffix, p);
    ScreenshotImage(dir, suffix, p);
  }

  /** The icon, the fan art and any name shorter than the screenshot prefix are not
      screenshots. */
  lemma NotScreenshot(dir: string, p: string)
    requires dir != [] && dir[|dir| - 1] != '/'
    requires p == JoinPath(dir, "icon.png") || p == JoinPath(dir, "fanart.jpg") || |p| < |dir| + 11
    ensures !IsScreenshot(dir, p)
  {
    JoinUnder(dir, "screenshot");
  }

  lemma ScreenshotsSnoc(dir: string, files: seq<string>, p: string)
    ensures Screenshots(dir, files + [p]) ==
            Screenshots(dir, files) + (if IsScreenshot(dir, p) then ["resources/" + TemplateProcessor.BaseName(p)] else [])
  {
    assert (files + [p])[..|files|] == files;
  }

  /** A listing of icons, fan art and short names holds no screenshot. */
  lemma {:induction false} NoScreenshots(dir: string, files: seq<string>)
    requires dir != [] && dir[|dir| - 1] != '/'
    requires forall i :: 0 <= i < |files| ==>
               files[i] == JoinPath(dir, "icon.png") || files[i] == JoinPath(dir, "fanart.jpg") || |files[i]| < |dir| + 11
    ensures Screenshots(dir, files) == []
  {
    if files != [] {
      NoScreenshots(dir, files[..|files| - 1]);
      NotScreenshot(dir, files[|files| - 1]);
    }
  }

  /** The listing of the unit test: a text file and an unknown image (both shorter than
      any name looked for), then the icon, the fan art and two screenshots under
      `<name>/resources`, give all three entries. */
  lemma AssetsExample(name: string, files: seq<string>)
    requires |files| == 6 && |files[0]| < |IconPath| && |files[1]| < |IconPath|
    requires files[2] == IconFile(name) && files[3] == FanartFile(name)
    requires files[4] == ScreenshotPrefix(name) + "1.jpg" && files[5] == ScreenshotPrefix(name) + "2.jpg"
    ensures AssetsOf(Assets(None, None, None), name, files) ==
            Assets(Some(IconPath), Some(FanartPath), Some(["resources/screenshot1.jpg", "resources/screenshot2.jpg"]))
  {
    var none := Assets(None, None, None);
    var dir := ResourcesDir(name);
    var r := AssetsOf(none, name, files);
    AssetsIconFanart(none, name, files);
    assert r.icon == Some(IconPath) && r.fanart == Some(FanartPath);
    AssetsScreenshots(none, dir, files);
    ExampleScreenshots(name, files);
    var shots := Screenshots(dir, files);
    ExampleNames();
    assert shots == ["resources/screenshot1.jpg", "resources/screenshot2.jpg"];
    assert [] + shots == shots;
    assert r.screenshots == Some(shots);
  }

  lemma ExampleNames()
    ensures "resources/" + ("screenshot" + "1" + ".jpg") == "resources/screenshot1.jpg"
    ensures "resources/" + ("screenshot" + "2" + ".jpg") == "resources/screenshot2.jpg"
  {
  }

  lemma ExampleScreenshots(name: string, files: seq<string>)
    requires |files| == 6 && |files[0]| < |IconPath| && |files[1]| < |IconPath|
    requires files[2] == IconFile(name) && files[3] == FanartFile(name)
    requires files[4] == ScreenshotPrefix(name) + "1.jpg" && files[5] == ScreenshotPrefix(name) + "2.jpg"
    ensures Screenshots(ResourcesDir(name), files) ==
            ["resources/" + ("screenshot" + "1" + ".jpg"), "resources/" + ("screenshot" + "2" + ".jpg")]
  {
    var dir := ResourcesDir(name);
    ResourceFiles(name);
    assert files[4] == JoinPath(dir, "screenshot") + "1" + ".jpg";
    assert files[5] == JoinPath(dir, "screenshot") + "2" + ".jpg";
    ScreenshotsListing(dir, IconFile(name), FanartFile(name), files, "1", "2");
  }

  /** Two short names, the icon, the fan art and two screenshots: the screenshots are the
      last two, in order. */
  lemma ScreenshotsListing(dir: string, icon: string, fanart: string, files: seq<string>, k1: string, k2: string)
    requires dir != [] && dir[|dir| - 1] != '/'
    requires icon == JoinPath(dir, "icon.png") && fanart == JoinPath(dir, "fanart.jpg")
    requires '/' !in k1 && '/' !in k2
    requires |files| == 6 && |files[0]| < |dir| + 11 && |files[1]| < |dir| + 11
    requires files[2] == icon && files[3] == fanart
    requires files[4] == JoinPath(dir, "screenshot") + k1 + ".jpg"
    requires files[5] == JoinPath(dir, "screenshot") + k2 + ".jpg"
    ensures Screenshots(dir, files) ==
            ["resources/" + ("screenshot" + k1 + ".jpg"), "resources/" + ("screenshot" + k2 + ".jpg")]
  {
    var head := files[..4];
    HeadHasNoScreenshots(dir, icon, fanart, head);
    OneScreenshot(dir, head, k1, files[4], []);
    assert files[..5] == head + [files[4]];
    OneScreenshot(dir, files[..5], k2, files[5], ["resources/" + ("screenshot" + k1 + ".jpg")]);
    assert files == files[..5] + [files[5]];
  }

  lemma OneScreenshot(dir: string, head: seq<string>, k: string, p: string, shots: seq<string>)
    requires dir != [] && dir[|dir| - 1] != '/'
    requires Screenshots(dir, head) == shots
    requires '/' !in k
    requires p == JoinPath(dir, "screenshot") + k + ".jpg"
    ensures Screenshots(dir, head + [p]) == shots + ["resources/" + ("screenshot" + k + ".jpg")]
  {
    JoinUnder(dir, "screenshot");
    ScreenshotAt(dir, k, p);
    ScreenshotsSnoc(dir, head, p);
  }

  lemma HeadHasNoScreenshots(dir: string, icon: string, fanart: string, files: seq<string>)
    requires dir != [] && dir[|dir| - 1] != '/'
    requires icon == JoinPath(dir, "icon.png") && fanart == JoinPath(dir, "fanart.jpg")
    requires |files| == 4 && |files[0]| < |dir| + 11 && |files[1]| < |dir| + 11
    requires files[2] == icon && files[3] == fanart
    ensures Screenshots(dir, files) == []
  {
    assert forall i :: 0 <= i < |files| ==> files[i] == icon || files[i] == fanart || |files[i]| < |dir| + 11;
    NoScreenshots(dir, files);
  }

  // ===========================================================================
  // KodiGameAddon

  /** `KodiGameAddon`: its names, its directory, its repository and the `info` record the
      later steps fill in. */
  class KodiGameAddon {
    const name: string
    const gameName: string
    const workingDirectory: string
    const path: string
    const repo: GitAccess.GitRepo
    var info: Info

    constructor(addonName: string, gameName: string, githubRepo: GitAccess.GitHubRepo, workingDirectory: string,
                pushBranch: Option<string>, cfg: AddonConfig, now: string, ext: string,
                disk: map<string, GitAccess.RepoState>)
      ensures name == addonName && this.gameName == gameName && this.workingDirectory == workingDirectory
      ensures path == JoinPath(workingDirectory, addonName)
      ensures fresh(repo) && repo.githubRepo == githubRepo
      ensures repo.git == GitAccess.Opened(disk, JoinPath(workingDirectory, githubRepo.name), githubRepo)
      ensures info == InitialInfo(addonName, gameName, pushBranch, cfg, now, ext)
    {
      name := addonName;
      this.gameName := gameName;
      repo := new GitAccess.GitRepo(githubRepo, workingDirectory, disk);
      this.workingDirectory := workingDirectory;
      path := JoinPath(workingDirectory, addonName);
      info := InitialInfo(addonName, gameName, pushBranch, cfg, now, ext);
    }

    /** Where `load_info_file` looks for the core's info file. */
    function InfoPath(): string
      reads this
    {
      JoinPath(JoinPath(JoinPath(JoinPath(workingDirectory, "libretro-super"), "dist"), "info"),
               info.library.soname + ".info")
    }

    /** `load_info_file`: `infoFiles` maps the existing files to their lines. */
    method LoadInfoFile(infoFiles: map<string, seq<string>>) returns (error: Option<Failure>)
      modifies this
      ensures old(InfoPath()) !in infoFiles ==> info == old(info) && error.None?
      ensures old(InfoPath()) in infoFiles ==>
                var l := LoadedInfo(old(info).libretroInfo, infoFiles[old(InfoPath())]);
                info == old(info).(libretroInfo := l.entries) && error == l.error
    {
      var p := InfoPath();
      error := None;
      if p !in infoFiles {
        return;
      }
      var lines := infoFiles[p];
      ghost var m := info.libretroInfo;
      ghost var start := info;
      for i := 0 to |lines|
        invariant info == start.(libretroInfo := LoadedInfo(m, lines[..i]).entries)
        invariant LoadedInfo(m, lines[..i]).error.None?
      {
        var r := InfoLine(info.libretroInfo, lines[i]);
        LoadedInfoStep(m, lines, i);
        if r.Err? {
          error := Some(r.error);
          ErrorStays(m, lines, i + 1);
          return;
        }
        info := info.(libretroInfo := r.value);
      }
      assert lines[..|lines|] == lines;
    }

    /** `load_assets`: `checkout` is the add-on directory; the listing is compared against
        paths under `<name>/resources`. */
    method LoadAssets(checkout: Utils.Tree)
      modifies this
      ensures info == old(info).(assets := AssetsOf(old(info).assets, name, Sort(Utils.JoinEach(Utils.FilesOf(checkout)))))
    {
      var listing := Utils.ListAllFiles(checkout);
      var files := Sort(listing);
      ghost var start := info;
      for i := 0 to |files|
        invariant info == start.(assets := AssetsOf(start.assets, name, files[..i]))
      {
        assert files[..i + 1][..i] == files[..i];
        var asset := files[i];
        if !IsImage(asset) {
          continue;
        }
        var a := info.assets;
        if asset == JoinPath(JoinPath(name, "resources"), "icon.png") {
          a := a.(icon := Some("resources/icon.png"));
        } else if asset == JoinPath(JoinPath(name, "resources"), "fanart.jpg") {
          a := a.(fanart := Some("resources/fanart.jpg"));
        } else if StartsWith(asset, JoinPath(JoinPath(name, "resources"), "screenshot")) {
          a := a.(screenshots := Some(a.screenshots.GetOr([]) + [JoinPath("resources", TemplateProcessor.BaseName(asset))]));
        }
        info := info.(assets := a);
      }
      assert files[..|files|] == files;
    }

    /** `load_git_revision`: the commit of the libretro core's checkout, when there is one;
        `sources` maps paths to the repositories found there. */
    method LoadGitRevision(sources: map<string, GitAccess.RepoState>) returns (error: Option<Failure>)
      modifies this
      ensures var p := JoinPath(JoinPath(JoinPath(JoinPath(JoinPath(workingDirectory, "build"), "build"), gameName), "src"), gameName);
              (p !in sources ==> info == old(info) && error.None?) &&
              (p in sources && GitAccess.HeadValid(sources[p]) ==>
                 error.None? && info == old(info).(libretroRepo := old(info).libretroRepo.(hexsha := GitAccess.Hexsha(sources[p]).value))) &&
              (p in sources && !GitAccess.HeadValid(sources[p]) ==> info == old(info) && error == Some(GitFailure(GitAccess.ValueError)))
    {
      var p := JoinPath(JoinPath(JoinPath(JoinPath(workingDirectory, "build"), "build"), gameName), "src");
      error := None;
      if GitAccess.GitRepo.IsGitRepo(sources, JoinPath(p, gameName)) {
        var core := GitAccess.Opened(sources, JoinPath(p, gameName), GitAccess.GitHubRepo(gameName, "", ""));
        match GitAccess.Hexsha(core)
        case Ok(sha) =>
          info := info.(libretroRepo := info.libretroRepo.(hexsha := sha));
        case Err(e) =>
          error := Some(GitFailure(e));
      }
    }

    /** `load_game_version`; `addonVersion` stands for `versions.AddonVersion.get`. */
    method LoadGameVersion(addonVersion: string -> string,
                           gitDescribe: (seq<GitAccess.Commit>, map<string, GitAccess.TagRef>) -> string)
      modifies this
      ensures info == old(info).(game := old(info).game.(version :=
                GameVersion(addonVersion(old(info).systemVersion), GitAccess.Describe(repo.git, gitDescribe))))
    {
      var version := addonVersion(info.systemVersion);
      var describe := repo.GetDescribe(gitDescribe);
      info := info.(game := info.game.(version := version + "." + PackageRevision(describe)));
    }

    method BumpVersion() returns (error: Option<Failure>)
      modifies this
      ensures BumpedVersion(old(info).game.version).Ok? ==>
                error.None? && info == old(info).(game := old(info).game.(version := BumpedVersion(old(info).game.version).value))
      ensures BumpedVersion(old(info).game.version).Err? ==>
                info == old(info) && error == Some(BumpedVersion(old(info).game.version).error)
    {
      var r := BumpedVersion(info.game.version);
      if r.Err? {
        return Some(r.error);
      }
      info := info.(game := info.game.(version := r.value));
      error := None;
    }

    method FetchAndReset(reset: bool, version: seq<nat>, server: GitAccess.Server, conflict: bool)
      returns (error: Option<Failure>)
      modifies repo
      ensures var o := GitAccess.FetchedAndReset(old(repo.git), reset, version, server, conflict);
              repo.git == o.state && (error.Some? <==> o.error.Some?) &&
              (o.error.Some? ==> error == Some(GitFailure(o.error.value)))
    {
      var e := repo.FetchAndReset(reset, version, server, conflict);
      error := if e.Some? then Some(GitFailure(e.value)) else None;
    }

    /** `commit(squash)`: commits everything and records the diff; `id` is the id of a new
        commit. */
    method Commit(squash: bool, id: string) returns (error: Option<Failure>)
      modifies this, repo
      ensures repo.git == GitAccess.CommitChanges(old(repo.git), CommitMessage, "", false, squash, id)
      ensures GitAccess.Diff(repo.git).Ok? ==> error.None? && info == old(info).(diff := Some(GitAccess.Diff(repo.git).value))
      ensures GitAccess.Diff(repo.git).Err? ==> info == old(info) && error == Some(GitFailure(GitAccess.ValueError))
    {
      repo.Commit(CommitMessage, "", false, squash, id);
      var d := repo.GetDiff();
      if d.Err? {
        return Some(GitFailure(d.error));
      }
      info := info.(diff := Some(d.value));
      error := None;
    }

    /** `tag`: `HEAD` of the add-on's repo gets the version tag. */
    method Tag() returns (error: Option<Failure>)
      modifies repo
      ensures var r := GitAccess.CreateTag(old(repo.git), TagName(info.game.version), None);
              (r.Ok? ==> error.None? && repo.git == r.value) &&
              (r.Err? ==> repo.git == old(repo.git) && error == Some(GitFailure(GitAccess.GitCommandError)))
      ensures error.None? <==> GitAccess.HeadValid(old(repo.git))
      ensures error.None? ==> repo.git.tags[TagName(info.game.version)].target == old(repo.git).commits[|old(repo.git).commits| - 1].id
    {
      GitAccess.TagHead(repo.git, TagName(info.game.version));
      var e := repo.Tag(TagName(info.game.version), None);
      error := if e.Some? then Some(GitFailure(e.value)) else None;
    }

    method Push() returns (error: Option<Failure>)
      modifies repo
      ensures var b := info.game.branch;
              var o := GitAccess.PushBranch(old(repo.git), b, PushesTags(b));
              repo.git == o.state && (error.Some? <==> o.error.Some?) &&
              (o.error.Some? ==> error == Some(GitFailure(o.error.value)))
    {
      var branch := info.game.branch;
      var e := repo.Push(branch, branch == "master");
      error := if e.Some? then Some(GitFailure(e.value)) else None;
    }
  }

  /** Once `load_info_file` has stopped, further lines do not matter. */
  /** One more line read on a loop that has not stopped yet. */
  lemma LoadedInfoStep(m: map<string, string>, lines: seq<string>, i: nat)
    requires i < |lines| && LoadedInfo(m, lines[..i]).error.None?
    ensures LoadedInfo(m, lines[..i + 1]) ==
              match InfoLine(LoadedInfo(m, lines[..i]).entries, lines[i])
              case Err(e) => Loaded(LoadedInfo(m, lines[..i]).entries, Some(e))
              case Ok(m') => Loaded(m', None)
  {
    assert lines[..i + 1][..i] == lines[..i];
    assert lines[..i + 1][i] == lines[i];
  }

  lemma {:induction false} ErrorStays(m: map<string, string>, lines: seq<string>, i: nat)
    requires i <= |lines| && LoadedInfo(m, lines[..i]).error.Some?
    ensures LoadedInfo(m, lines) == LoadedInfo(m, lines[..i])
    decreases |lines| - i
  {
    if i < |lines| {
      assert lines[..i + 1][..i] == lines[..i];
      ErrorStays(m, lines, i + 1);
    } else {
      assert lines[..i] == lines;
    }
  }

  // ===========================================================================
  // KodiGameAddons: which add-ons, in which order

  /** `config.ADDONS`, in its own order (the keys are distinct). */
  type Config = seq<(string, AddonConfig)>

  /** The filtered dictionary of `_prepare_environment`; `search(filter, key)` stands for
      `re.search(filter, key)` being truthy. */
  function Selected(cfg: Config, filter: string, search: (string, string) -> bool): (r: Config)
    ensures forall e :: e in r <==> e in cfg && search(filter, e.0)
  {
    if cfg == [] then []
    else
      var rest := Selected(cfg[1..], filter, search);
      assert forall e :: e in cfg <==> e == cfg[0] || e in cfg[1..];
      if search(filter, cfg[0].0) then [cfg[0]] + rest else rest
  }

  function Keys(cfg: Config): (r: seq<string>)
    ensures |r| == |cfg| && forall i :: 0 <= i < |cfg| ==> r[i] == cfg[i].0
  {
    if cfg == [] then [] else [cfg[0].0] + Keys(cfg[1..])
  }

  lemma KeysMembers(cfg: Config)
    ensures forall k :: k in Keys(cfg) <==> exists e :: e in cfg && e.0 == k
  {
    forall k ensures k in Keys(cfg) <==> exists e :: e in cfg && e.0 == k {
      if k in Keys(cfg) {
        var i :| 0 <= i < |Keys(cfg)| && Keys(cfg)[i] == k;
        assert cfg[i] in cfg;
      }
      if exists e :: e in cfg && e.0 == k {
        var e :| e in cfg && e.0 == k;
        var i :| 0 <= i < |cfg| && cfg[i] == e;
        assert Keys(cfg)[i] == k;
      }
    }
  }

  /** The game names processed, in `sorted` order, or `ValueError` when the filter matches
      nothing. */
  function AddonNames(cfg: Config, filter: string, search: (string, string) -> bool): (r: Result<seq<string>, Failure>)
    ensures r.Err? <==> forall e :: e in cfg ==> !search(filter, e.0)
    ensures r.Err? ==> r.error == ValueError
    ensures r.Ok? ==> Sorted(r.value) && forall k :: k in r.value <==> exists e :: e in cfg && e.0 == k && search(filter, e.0)
    ensures r.Ok? ==> multiset(r.value) == multiset(Keys(Selected(cfg, filter, search)))
  {
    var sel := Selected(cfg, filter, search);
    if sel == [] then
      assert forall e :: e in cfg ==> !search(filter, e.0) by {
        forall e | e in cfg ensures !search(filter, e.0) {
          assert e !in sel;
        }
      }
      Err(ValueError)
    else
      assert sel[0] in sel;
      var names := Sort(Keys(sel));
      assert forall k :: k in names <==> k in multiset(Keys(sel));
      KeysMembers(sel);
      Ok(names)
  }

  function AddonName(gameName: string): string { AddonPrefix + gameName }

  /** The expression `get_repos` is asked for: the filter, or the add-on prefix. */
  function RepoRegex(filter: string): string { if filter != "" then filter else AddonPrefix }

  /** How an add-on gets its `GitHubRepo`: listed on GitHub, to be created there, or a
      local stand-in without URLs. */
  datatype RepoChoice = Listed(repo: GitAccess.GitHubRepo) | ToCreate | Local(repo: GitAccess.GitHubRepo)

  function PushBranchSet(pushBranch: Option<string>): bool { pushBranch.Some? && pushBranch.value != "" }

  function ChooseRepo(repos: map<string, GitAccess.GitHubRepo>, addonName: string, git: bool,
                      pushBranch: Option<string>): (r: RepoChoice)
    ensures r.Listed? <==> addonName in repos
    ensures r.ToCreate? <==> addonName !in repos && git && PushBranchSet(pushBranch)
    ensures r.Listed? ==> r.repo == repos[addonName]
    ensures r.Local? ==> r.repo == GitAccess.GitHubRepo(addonName, "", "")
  {
    if addonName in repos then Listed(repos[addonName])
    else if git && PushBranchSet(pushBranch) then ToCreate
    else Local(GitAccess.GitHubRepo(addonName, "", ""))
  }

  datatype Planned = Planned(gameName: string, addonName: string, repo: RepoChoice)

  /** The add-on loop of `_prepare_environment`: one entry per selected game, in sorted
      order; `repos` is what `get_repos` returned (empty without `--git`). */
  method PrepareAddons(cfg: Config, filter: string, search: (string, string) -> bool,
                       repos: map<string, GitAccess.GitHubRepo>, git: bool, pushBranch: Option<string>)
    returns (r: Result<seq<Planned>, Failure>)
    ensures var names := AddonNames(cfg, filter, search);
            (r.Err? <==> names.Err?) && (r.Err? ==> r.error == ValueError) &&
            (r.Ok? ==> (|r.value| == |names.value| &&
               forall i :: 0 <= i < |r.value| ==>
                 r.value[i] == Planned(names.value[i], AddonName(names.value[i]),
                                       ChooseRepo(repos, AddonName(names.value[i]), git, pushBranch))))
  {
    var names := AddonNames(cfg, filter, search);
    if names.Err? {
      return Err(ValueError);
    }
    var planned: seq<Planned> := [];
    for i := 0 to |names.value|
      invariant |planned| == i
      invariant forall j :: 0 <= j < i ==>
        planned[j] == Planned(names.value[j], AddonName(names.value[j]), ChooseRepo(repos, AddonName(names.value[j]), git, pushBranch))
    {
      var gameName := names.value[i];
      var addonName := AddonPrefix + gameName;
      var repo: RepoChoice;
      if addonName in repos {
        repo := Listed(repos[addonName]);
      } else if git && PushBranchSet(pushBranch) {
        repo := ToCreate;
      } else {
        repo := Local(GitAccess.GitHubRepo(addonName, "", ""));
      }
      planned := planned + [Planned(gameName, addonName, repo)];
    }
    r := Ok(planned);
  }

  /** The git calls `process` makes on each add-on. */
  datatype Action = CommitAddon(name: string, squash: bool) | Bump(name: string) | Render(name: string)
                  | TagAddon(name: string) | PushAddon(name: string)

  function CommitAll(names: seq<string>, squash: bool): (r: seq<Action>)
    ensures |r| == |names| && forall i :: 0 <= i < |names| ==> r[i] == CommitAddon(names[i], squash)
  {
    if names == [] then [] else [CommitAddon(names[0], squash)] + CommitAll(names[1..], squash)
  }

  /** The third iteration: bump, render, squash and tag each add-on whose diff is
      non-empty (`changed`). */
  function Updates(names: seq<string>, changed: string -> bool): seq<Action> {
    if names == [] then []
    else
      var n := names[|names| - 1];
      Updates(names[..|names| - 1], changed) +
      (if changed(n) then [Bump(n), Render(n), CommitAddon(n, true), TagAddon(n)] else [])
  }

  /** Pushes in reversed order. */
  function PushAll(names: seq<string>): seq<Action> {
    if names == [] then [] else PushAll(names[1..]) + [PushAddon(names[0])]
  }

  /** The git part of `process`: commit everything (squashing with `--git-noclean`), update
      the changed add-ons, then push when a push branch is given. */
  method GitSteps(names: seq<string>, noclean: bool, pushBranch: Option<string>, changed: string -> bool)
    returns (actions: seq<Action>)
    ensures actions == CommitAll(names, noclean) + Updates(names, changed) +
                       (if PushBranchSet(pushBranch) then PushAll(names) else [])
  {
    var commits := CommitEach(names, noclean);
    var updates := UpdateChanged(names, changed);
    actions := commits + updates;
    if PushBranchSet(pushBranch) {
      var pushes := PushEach(names);
      actions := actions + pushes;
    }
  }

  /** The first loop: every add-on is committed. */
  method CommitEach(names: seq<string>, noclean: bool) returns (actions: seq<Action>)
    ensures actions == CommitAll(names, noclean)
  {
    actions := [];
    for i := 0 to |names|
      invariant actions == CommitAll(names[..i], noclean)
    {
      CommitAllAppend(names[..i], names[i], noclean);
      assert names[..i + 1] == names[..i] + [names[i]];
      actions := actions + [CommitAddon(names[i], noclean)];
    }
    assert names[..|names|] == names;
  }

  /** The third iteration: only changed add-ons are bumped, rendered, committed and tagged. */
  method UpdateChanged(names: seq<string>, changed: string -> bool) returns (updates: seq<Action>)
    ensures updates == Updates(names, changed)
  {
    updates := [];
    for i := 0 to |names|
      invariant updates == Updates(names[..i], changed)
    {
      assert names[..i + 1][..i] == names[..i];
      if changed(names[i]) {
        updates := updates + [Bump(names[i]), Render(names[i]), CommitAddon(names[i], true), TagAddon(names[i])];
      }
    }
    assert names[..|names|] == names;
  }

  /** The push loop, over the add-ons in reverse order. */
  method PushEach(names: seq<string>) returns (pushes: seq<Action>)
    ensures pushes == PushAll(names)
  {
    pushes := [];
    var i := |names|;
    while i > 0
      invariant 0 <= i <= |names|
      invariant pushes == PushAll(names[i..])
    {
      i := i - 1;
      assert names[i..][1..] == names[i + 1..];
      pushes := pushes + [PushAddon(names[i])];
    }
  }

  lemma {:induction false} CommitAllAppend(names: seq<string>, n: string, squash: bool)
    ensures CommitAll(names + [n], squash) == CommitAll(names, squash) + [CommitAddon(n, squash)]
  {
  }

  /** An add-on is bumped, and tagged, exactly when it is processed and changed. */
  lemma {:induction false} UpdatesIff(names: seq<string>, changed: string -> bool, n: string)
    ensures TagAddon(n) in Updates(names, changed) <==> n in names && changed(n)
    ensures Bump(n) in Updates(names, changed) <==> n in names && changed(n)
    ensures PushAddon(n) !in Updates(names, changed)
  {
    if names != [] {
      var init := names[..|names| - 1];
      UpdatesIff(init, changed, names[|names| - 1]);
      UpdatesIff(init, changed, n);
      assert names == init + [names[|names| - 1]];
    }
  }

  /** Every commit of the third iteration squashes. */
  lemma {:induction false} UpdatesSquash(names: seq<string>, changed: string -> bool)
    ensures forall a :: a in Updates(names, changed) && a.CommitAddon? ==> a.squash
  {
    if names != [] {
      UpdatesSquash(names[..|names| - 1], changed);
    }
  }

  /** The k-th push is of the k-th name from the end. */
  lemma {:induction false} PushAllReversed(names: seq<string>)
    ensures |PushAll(names)| == |names|
    ensures forall k :: 0 <= k < |names| ==> PushAll(names)[k] == PushAddon(names[|names| - 1 - k])
  {
    if names != [] {
      PushAllReversed(names[1..]);
    }
  }

  /** With names in sorted order (as `AddonNames` gives them), pushes go in descending
      order. */
  lemma PushAllDescending(names: seq<string>)
    requires Sorted(names)
    ensures forall k, l :: 0 <= k < l < |PushAll(names)| ==> LessEq(PushAll(names)[l].name, PushAll(names)[k].name)
  {
    PushAllReversed(names);
    forall k, l | 0 <= k < l < |PushAll(names)|
      ensures LessEq(PushAll(names)[l].name, PushAll(names)[k].name)
    {
      assert PushAll(names)[l].name == names[|names| - 1 - l];
      assert PushAll(names)[k].name == names[|names| - 1 - k];
    }
  }
}
