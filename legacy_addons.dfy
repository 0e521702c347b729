/** The older command-line script at the root of the repository: it walks the game add-on
    directories, derives each add-on's name and configuration, and writes the template
    files into every add-on. Its `list_all_files` differs from the package's one by
    skipping hidden files and never descending into hidden directories, and its
    template rule treats every extension that starts with `.j2` as a template. */
module LegacyAddons {
  import opened Wrappers
  import opened Text
  import Utils
  import TemplateProcessor

  // ===========================================================================
  // Hidden files and directories

  /** A name that `list_all_files` skips: one whose first character is a dot. (`os.walk`
      never reports an empty name.) */
  predicate Hidden(name: string) { |name| > 0 && name[0] == '.' }

  /** `[f for f in filenames if not f[0] == '.']`. */
  function KeptNames(names: seq<string>): (r: seq<string>)
    ensures forall n :: n in r <==> n in names && !Hidden(n)
  {
    if names == [] then []
    else
      var rest := KeptNames(names[1..]);
      assert forall n :: n in names <==> n == names[0] || n in names[1..];
      (if Hidden(names[0]) then [] else [names[0]]) + rest
  }

  /** `dirs[:] = [d for d in dirs if not d[0] == '.']`: the sub-directories the walk
      still enters, each with its whole tree. */
  function KeptDirs(ds: seq<Utils.Subdir>): (r: seq<Utils.Subdir>)
    ensures forall d :: d in r <==> d in ds && !Hidden(d.name)
  {
    if ds == [] then []
    else
      var rest := KeptDirs(ds[1..]);
      assert forall d :: d in ds <==> d == ds[0] || d in ds[1..];
      (if Hidden(ds[0].name) then [] else [ds[0]]) + rest
  }

  lemma KeptDirsCons(ds: seq<Utils.Subdir>)
    requires ds != []
    ensures KeptDirs(ds) == (if Hidden(ds[0].name) then [] else [ds[0]]) + KeptDirs(ds[1..])
  {
  }

  /** The tree the pruned walk actually sees: hidden files dropped at every level, hidden
      directories dropped together with everything below them. */
  function Visible(t: Utils.Tree): Utils.Tree
    decreases t, 1
  {
    Utils.Tree(KeptNames(t.files), VisibleDirs(t, 0))
  }

  function VisibleDirs(t: Utils.Tree, i: nat): seq<Utils.Subdir>
    requires i <= |t.dirs|
    decreases t, 0, |t.dirs| - i
  {
    if i == |t.dirs| then []
    else
      assert t.dirs[i] in t.dirs;
      var d := t.dirs[i];
      (if Hidden(d.name) then [] else [Utils.Subdir(d.name, Visible(d.tree))]) + VisibleDirs(t, i + 1)
  }

  /** No component of a path is hidden. */
  predicate NoHidden(c: Utils.Components) {
    forall k :: 0 <= k < |c| ==> !Hidden(c[k])
  }

  lemma {:induction false} VisibleDirsMembers(t: Utils.Tree, i: nat, sd: Utils.Subdir)
    requires i <= |t.dirs|
    ensures sd in VisibleDirs(t, i) <==>
            exists j :: i <= j < |t.dirs| && !Hidden(t.dirs[j].name) &&
                        sd == Utils.Subdir(t.dirs[j].name, Visible(t.dirs[j].tree))
    decreases |t.dirs| - i
  {
    if i < |t.dirs| {
      VisibleDirsMembers(t, i + 1, sd);
      var d := t.dirs[i];
      var head := if Hidden(d.name) then [] else [Utils.Subdir(d.name, Visible(d.tree))];
      assert VisibleDirs(t, i) == head + VisibleDirs(t, i + 1);
      if sd in head {
        assert i <= i < |t.dirs| && !Hidden(t.dirs[i].name) &&
               sd == Utils.Subdir(t.dirs[i].name, Visible(t.dirs[i].tree));
      }
    }
  }

  /** A file is seen by the pruned walk exactly when it exists and no component of its
      path is hidden. */
  lemma {:induction false} FileAtVisible(t: Utils.Tree, c: Utils.Components)
    ensures Utils.FileAt(Visible(t), c) <==> Utils.FileAt(t, c) && NoHidden(c)
    decreases t, 1
  {
    if |c| == 1 {
      assert NoHidden(c) <==> !Hidden(c[0]);
    } else if |c| > 1 {
      NoHiddenCons(c);
      if Utils.FileAt(Visible(t), c) {
        SeenIsThere(t, c);
      }
      if Utils.FileAt(t, c) && NoHidden(c) {
        ThereIsSeen(t, c);
      }
    }
  }

  lemma NoHiddenCons(c: Utils.Components)
    requires |c| > 0
    ensures NoHidden(c) <==> !Hidden(c[0]) && NoHidden(c[1..])
  {
    assert forall k :: 1 <= k < |c| ==> c[k] == c[1..][k - 1];
  }

  /** A path through a visible directory leads to a file of the real tree under a
      directory that is not hidden. */
  lemma {:induction false} SeenIsThere(t: Utils.Tree, c: Utils.Components)
    requires |c| > 1 && Utils.FileAt(Visible(t), c)
    ensures Utils.FileAt(t, c) && !Hidden(c[0]) && NoHidden(c[1..])
    decreases t, 0
  {
    var v := Visible(t);
    var q := c[1..];
    var i :| 0 <= i < |v.dirs| && v.dirs[i].name == c[0] && Utils.FileAtChild(v, i, q);
    var sd := v.dirs[i];
    assert sd in VisibleDirs(t, 0);
    VisibleDirsMembers(t, 0, sd);
    var j :| 0 <= j < |t.dirs| && !Hidden(t.dirs[j].name) &&
             sd == Utils.Subdir(t.dirs[j].name, Visible(t.dirs[j].tree));
    assert t.dirs[j] in t.dirs;
    assert Utils.FileAt(Visible(t.dirs[j].tree), q);
    FileAtVisible(t.dirs[j].tree, q);
    assert Utils.FileAtChild(t, j, q);
  }

  /** A file of the real tree on a path without hidden components is reached through the
      visible directories. */
  lemma {:induction false} ThereIsSeen(t: Utils.Tree, c: Utils.Components)
    requires |c| > 1 && Utils.FileAt(t, c) && !Hidden(c[0]) && NoHidden(c[1..])
    ensures Utils.FileAt(Visible(t), c)
    decreases t, 0
  {
    var v := Visible(t);
    var q := c[1..];
    var j :| 0 <= j < |t.dirs| && t.dirs[j].name == c[0] && Utils.FileAtChild(t, j, q);
    assert t.dirs[j] in t.dirs;
    FileAtVisible(t.dirs[j].tree, q);
    var sd := Utils.Subdir(t.dirs[j].name, Visible(t.dirs[j].tree));
    VisibleDirsMembers(t, 0, sd);
    assert sd in v.dirs;
    var i :| 0 <= i < |v.dirs| && v.dirs[i] == sd;
    assert Utils.FileAtChild(v, i, q);
  }

  /** What the walk lists over the pruned tree: a relative path is returned exactly when a
      file sits there and neither it nor any directory on its way is hidden. */
  lemma ListedIffVisible(t: Utils.Tree, s: string)
    ensures s in Utils.JoinEach(Utils.FilesOf(Visible(t))) <==>
            exists c :: Utils.FileAt(t, c) && NoHidden(c) && Utils.JoinAll(c) == s
  {
    Utils.ListedIffFile(Visible(t), s);
    forall c ensures Utils.FileAt(Visible(t), c) <==> Utils.FileAt(t, c) && NoHidden(c) {
      FileAtVisible(t, c);
    }
  }

  /** Nothing below a hidden directory and no hidden file is ever listed. */
  lemma NothingHiddenListed(t: Utils.Tree, c: Utils.Components)
    requires c in Utils.FilesOf(Visible(t))
    ensures NoHidden(c) && Utils.FileAt(t, c)
  {
    Utils.FilesOfIffFileAt(Visible(t), c);
    FileAtVisible(t, c);
  }

  // ===========================================================================
  // The pruned walk

  /** The work list as the pruned walk sees it. */
  function VisibleWork(ws: seq<Utils.Pending>): (r: seq<Utils.Pending>)
    ensures |r| == |ws|
  {
    if ws == [] then [] else [Utils.Pending(ws[0].rel, Visible(ws[0].tree))] + VisibleWork(ws[1..])
  }

  /** The sub-directories left after pruning, as new work, each with its whole tree. */
  function ChildrenOf(rel: Utils.Components, ds: seq<Utils.Subdir>): seq<Utils.Pending> {
    if ds == [] then [] else [Utils.Pending(rel + [ds[0].name], ds[0].tree)] + ChildrenOf(rel, ds[1..])
  }

  lemma {:induction false} VisibleWorkAppend(a: seq<Utils.Pending>, b: seq<Utils.Pending>)
    ensures VisibleWork(a + b) == VisibleWork(a) + VisibleWork(b)
  {
    if a != [] {
      assert (a + b)[0] == a[0];
      assert (a + b)[1..] == a[1..] + b;
      VisibleWorkAppend(a[1..], b);
    } else {
      assert a + b == b;
    }
  }

  lemma ChildrenOfCons(rel: Utils.Components, d: Utils.Subdir, ds: seq<Utils.Subdir>)
    ensures ChildrenOf(rel, [d] + ds) == [Utils.Pending(rel + [d.name], d.tree)] + ChildrenOf(rel, ds)
  {
    assert ([d] + ds)[0] == d && ([d] + ds)[1..] == ds;
  }

  lemma VisibleWorkCons(p: Utils.Pending, ws: seq<Utils.Pending>)
    ensures VisibleWork([p] + ws) == [Utils.Pending(p.rel, Visible(p.tree))] + VisibleWork(ws)
  {
    assert ([p] + ws)[0] == p && ([p] + ws)[1..] == ws;
  }

  /** Pruning a directory's entries and then seeing each kept child through the pruned
      walk gives the children of the directory's visible tree. */
  lemma {:induction false} ChildrenOfKept(rel: Utils.Components, t: Utils.Tree, i: nat)
    requires i <= |t.dirs|
    ensures VisibleWork(ChildrenOf(rel, KeptDirs(t.dirs[i..]))) == ChildrenOf(rel, VisibleDirs(t, i))
    decreases |t.dirs| - i
  {
    if i < |t.dirs| {
      ChildrenOfKept(rel, t, i + 1);
      var d := t.dirs[i];
      var ds := t.dirs[i..];
      assert ds[0] == d && ds[1..] == t.dirs[i + 1..];
      KeptDirsCons(ds);
      var kept := KeptDirs(t.dirs[i + 1..]);
      var later := VisibleDirs(t, i + 1);
      if Hidden(d.name) {
        assert KeptDirs(ds) == kept;
        assert VisibleDirs(t, i) == later;
      } else {
        var vd := Utils.Subdir(d.name, Visible(d.tree));
        assert KeptDirs(ds) == [d] + kept;
        assert VisibleDirs(t, i) == [vd] + later;
        calc {
          VisibleWork(ChildrenOf(rel, [d] + kept));
          { ChildrenOfCons(rel, d, kept); }
          VisibleWork([Utils.Pending(rel + [d.name], d.tree)] + ChildrenOf(rel, kept));
          { VisibleWorkCons(Utils.Pending(rel + [d.name], d.tree), ChildrenOf(rel, kept)); }
          [Utils.Pending(rel + [d.name], Visible(d.tree))] + ChildrenOf(rel, later);
          { ChildrenOfCons(rel, vd, later); }
          ChildrenOf(rel, [vd] + later);
        }
      }
    }
  }

  /** `Children` of the package's walk is `ChildrenOf` the directory's entries. */
  lemma {:induction false} ChildrenIsChildrenOf(rel: Utils.Components, t: Utils.Tree, i: nat)
    requires i <= |t.dirs|
    ensures Utils.Children(rel, t, i) == ChildrenOf(rel, t.dirs[i..])
    decreases |t.dirs| - i
  {
    if i < |t.dirs| {
      ChildrenIsChildrenOf(rel, t, i + 1);
      assert t.dirs[i..][0] == t.dirs[i] && t.dirs[i..][1..] == t.dirs[i + 1..];
    }
  }

  /** Visiting the first directory of the work list: its visible files are listed, and
      the sub-directories left after pruning replace it; what the pruned walk has still
      to list is unchanged, and its work shrinks. */
  lemma PrunedVisitStep(work: seq<Utils.Pending>)
    requires work != []
    ensures var rel, dir := work[0].rel, work[0].tree;
            var next := ChildrenOf(rel, KeptDirs(dir.dirs)) + work[1..];
            Utils.PrefixedBy(rel, Utils.Singletons(KeptNames(dir.files))) + Utils.PendingFiles(VisibleWork(next))
              == Utils.PendingFiles(VisibleWork(work)) &&
            Utils.PendingSize(VisibleWork(next)) < Utils.PendingSize(VisibleWork(work))
  {
    var rel, dir := work[0].rel, work[0].tree;
    var kids := ChildrenOf(rel, KeptDirs(dir.dirs));
    var next := kids + work[1..];
    var seen := VisibleWork(work);
    assert seen[0] == Utils.Pending(rel, Visible(dir));
    assert seen[1..] == VisibleWork(work[1..]);
    Utils.VisitDirStep(seen);
    Utils.VisitDirShrinks(seen);
    VisibleWorkAppend(kids, work[1..]);
    assert dir.dirs[0..] == dir.dirs;
    ChildrenOfKept(rel, dir, 0);
    ChildrenIsChildrenOf(rel, Visible(dir), 0);
    assert Visible(dir).dirs[0..] == VisibleDirs(dir, 0);
    assert VisibleWork(next) == Utils.Children(rel, Visible(dir), 0) + seen[1..];
  }

  /** `list_all_files(path)` of the script: a top-down walk whose `dirs` list is pruned of
      hidden directories before the walk descends, and whose hidden file names are dropped;
      every remaining file is appended, joined to its directory's path relative to the
      root. */
  method ListAllFiles(root: Utils.Tree) returns (allFiles: seq<string>)
    ensures allFiles == Utils.JoinEach(Utils.FilesOf(Visible(root)))
  {
    ghost var listed: seq<Utils.Components> := [];
    allFiles := [];
    var work := [Utils.Pending([], root)];
    Utils.PrefixedByEmpty(Utils.FilesOf(Visible(root)));
    assert VisibleWork(work) == [Utils.Pending([], Visible(root))];
    assert Utils.PendingFiles(VisibleWork(work)) == Utils.PrefixedBy([], Utils.FilesOf(Visible(root))) + Utils.PendingFiles([]);
    while work != []
      invariant allFiles == Utils.JoinEach(listed)
      invariant listed + Utils.PendingFiles(VisibleWork(work)) == Utils.FilesOf(Visible(root))
      decreases Utils.PendingSize(VisibleWork(work))
    {
      var dirpath := work[0].rel;
      var dir := work[0].tree;
      var filenames := KeptNames(dir.files);
      var dirs := KeptDirs(dir.dirs);
      var files := Utils.ListDirectory(dirpath, filenames);
      ghost var own := Utils.PrefixedBy(dirpath, Utils.Singletons(filenames));
      Utils.JoinEachAppend(listed, own);
      PrunedVisitStep(work);
      var next := ChildrenOf(dirpath, dirs) + work[1..];
      Utils.Regroup(listed, own, Utils.PendingFiles(VisibleWork(next)), Utils.PendingFiles(VisibleWork(work)));
      allFiles := allFiles + files;
      listed := listed + own;
      work := next;
    }
    assert listed + Utils.PendingFiles(VisibleWork(work)) == listed;
  }


  // ===========================================================================
  // process_addon: name and configuration

  /** The failures of the script's add-on processing: `rsplit('.', 1)[1]` on a name without
      a dot. */
  datatype Failure = IndexError

  /** `config.ADDONS`: core name to (libretro repository, makefile, makefile directory). */
  type Config = map<string, (string, string, string)>

  /** The template variables `process_addon` fills in before the templates are written;
      `repo` is absent when the configuration has no entry, and `makefile` is then the
      empty dictionary. */
  datatype Vars = Vars(gameName: string, repo: Option<string>, makefile: map<string, string>)

  /** `addon.rsplit('.', 1)[1]`: the text after the last dot of the directory name. */
  function AddonName(addon: string): (r: Result<string, Failure>)
    ensures r.Err? <==> '.' !in addon
    ensures r.Ok? ==> '.' !in r.value && exists stem :: addon == stem + "." + r.value
  {
    match RSplitOnce(addon, '.')
    case None => Err(IndexError)
    case Some(parts) => (assert addon == parts.0 + "." + parts.1; Ok(parts.1))
  }

  /** The name of a directory `game.libretro.<core>` is the core. */
  lemma AddonNameOf(stem: string, core: string)
    requires '.' !in core
    ensures AddonName(stem + "." + core) == Ok(core)
  {
    RSplitOnceOfJoin(stem, '.', core);
  }

  /** The variables `process_addon` starts the templates with. */
  function AddonVars(addon: string, cfg: Config): (r: Result<Vars, Failure>)
    ensures r.Err? <==> AddonName(addon).Err?
  {
    match AddonName(addon)
    case Err(e) => Err(e)
    case Ok(name) =>
      if name in cfg then
        var entry := cfg[name];
        Ok(Vars(name, Some(entry.0), map["file" := entry.1, "dir" := entry.2]))
      else Ok(Vars(name, None, map[]))
  }

  /** A configured core gets its repository, makefile and directory from the entry's first
      three positions; any other core gets no repository and an empty makefile. */
  lemma AddonVarsLookup(addon: string, cfg: Config)
    requires AddonName(addon).Ok?
    ensures var name := AddonName(addon).value;
            var v := AddonVars(addon, cfg).value;
            v.gameName == name &&
            (name in cfg ==> v.repo == Some(cfg[name].0) &&
                             v.makefile.Keys == {"file", "dir"} &&
                             v.makefile["file"] == cfg[name].1 && v.makefile["dir"] == cfg[name].2) &&
            (name !in cfg ==> v.repo.None? && v.makefile == map[])
  {
  }

  // ===========================================================================
  // process_directory: the filter

  /** The add-on directories whose name contains the filter, in walk order. */
  function Selected(filter: string, addons: seq<string>): seq<string> {
    if addons == [] then []
    else
      var last := addons[|addons| - 1];
      Selected(filter, addons[..|addons| - 1]) + (if Contains(last, filter) then [last] else [])
  }

  lemma {:induction false} SelectedMembers(filter: string, addons: seq<string>)
    ensures forall a :: a in Selected(filter, addons) <==> a in addons && Contains(a, filter)
  {
    if addons != [] {
      var init := addons[..|addons| - 1];
      SelectedMembers(filter, init);
      assert addons == init + [addons[|addons| - 1]];
    }
  }

  lemma {:induction false} ContainsEmpty(s: string)
    ensures Contains(s, "")
  {
    assert s[..0] == "";
  }

  /** An empty filter selects every add-on. */
  lemma {:induction false} SelectedEmptyFilter(addons: seq<string>)
    ensures Selected("", addons) == addons
  {
    if addons != [] {
      var init := addons[..|addons| - 1];
      SelectedEmptyFilter(init);
      ContainsEmpty(addons[|addons| - 1]);
      assert addons == init + [addons[|addons| - 1]];
    }
  }

  /** What `process_directory` hands to `process_addon`, in order, up to the first add-on
      whose name has no dot (the `IndexError` ends the run). */
  function Processed(filter: string, addons: seq<string>, cfg: Config): Result<seq<Vars>, Failure> {
    if addons == [] then Ok([])
    else
      var last := addons[|addons| - 1];
      match Processed(filter, addons[..|addons| - 1], cfg)
      case Err(e) => Err(e)
      case Ok(vs) =>
        if !Contains(last, filter) then Ok(vs)
        else
          match AddonVars(last, cfg)
          case Err(e) => Err(e)
          case Ok(v) => Ok(vs + [v])
  }

  /** Without failures, exactly the selected add-ons are processed, in walk order. */
  lemma {:induction false} ProcessedSelected(filter: string, addons: seq<string>, cfg: Config)
    ensures Processed(filter, addons, cfg).Err? <==>
            exists a :: a in Selected(filter, addons) && '.' !in a
    ensures Processed(filter, addons, cfg).Ok? ==>
            var vs := Processed(filter, addons, cfg).value;
            var sel := Selected(filter, addons);
            |vs| == |sel| && forall i :: 0 <= i < |sel| ==> Ok(vs[i]) == AddonVars(sel[i], cfg)
  {
    if addons != [] {
      var init := addons[..|addons| - 1];
      var last := addons[|addons| - 1];
      ProcessedSelected(filter, init, cfg);
      var prev := Selected(filter, init);
      assert Selected(filter, addons) == prev + (if Contains(last, filter) then [last] else []);
      forall a ensures a in Selected(filter, addons) <==> a in prev || (a == last && Contains(last, filter)) {
      }
    }
  }

  /** `process_directory`: every immediate sub-directory whose name contains the filter is
      processed, the others are skipped. */
  method ProcessDirectory(filter: string, addons: seq<string>, cfg: Config) returns (r: Result<seq<Vars>, Failure>)
    ensures r == Processed(filter, addons, cfg)
  {
    var vs: seq<Vars> := [];
    for i := 0 to |addons|
      invariant Processed(filter, addons[..i], cfg) == Ok(vs)
    {
      assert addons[..i + 1][..i] == addons[..i];
      var addon := addons[i];
      if Contains(addon, filter) {
        var v := AddonVars(addon, cfg);
        if v.Err? {
          PrefixErrorStays(filter, addons, cfg, i + 1);
          return Err(v.error);
        }
        vs := vs + [v.value];
      }
    }
    assert addons[..|addons|] == addons;
    return Ok(vs);
  }

  /** Once processing fails, later add-ons do not change the outcome. */
  lemma {:induction false} PrefixErrorStays(filter: string, addons: seq<string>, cfg: Config, i: nat)
    requires i <= |addons| && Processed(filter, addons[..i], cfg).Err?
    ensures Processed(filter, addons, cfg) == Processed(filter, addons[..i], cfg)
    decreases |addons| - i
  {
    if i < |addons| {
      assert addons[..i + 1][..i] == addons[..i];
      PrefixErrorStays(filter, addons, cfg, i + 1);
    } else {
      assert addons[..i] == addons;
    }
  }

  // ===========================================================================
  // _process_templates

  /** What the loop does with one template file: render a template to a name, or copy a
      file unchanged. */
  datatype Output = Generate(template: string, name: string) | Copy(source: string, name: string)

  /** The name is rendered only when it contains both `{{` and `}}`; the output is a
      template exactly when its extension starts with `.j2` (so `.j2` and also `.j2x`),
      and is then written without that extension. */
  function OutputFor(infile: string, renderName: string -> string): Output {
    var outfile := if Contains(infile, "{{") && Contains(infile, "}}") then renderName(infile) else infile;
    var (outfileName, extension) := TemplateProcessor.SplitExt(outfile);
    if StartsWith(extension, ".j2") then Generate(infile, outfileName) else Copy(infile, outfile)
  }

  lemma SplitJ2(stem: string, w: string)
    requires exists k :: 0 <= k < |TemplateProcessor.BaseName(stem)| && TemplateProcessor.BaseName(stem)[k] != '.'
    requires '.' !in w && '/' !in w
    ensures TemplateProcessor.SplitExt(stem + ".j2" + w) == (stem, ".j2" + w)
  {
    var ext := ".j2" + w;
    assert ext[1..] == "j2" + w;
    assert '.' !in ext[1..] && '/' !in ext;
    TemplateProcessor.SplitExtOf(stem, ext);
    assert stem + ".j2" + w == stem + ext;
  }

  /** A file `<stem>.j2<w>` is rendered to `<stem>` whatever the suffix `w`. */
  lemma TemplateExtensions(stem: string, w: string, renderName: string -> string)
    requires exists k :: 0 <= k < |TemplateProcessor.BaseName(stem)| && TemplateProcessor.BaseName(stem)[k] != '.'
    requires '.' !in w && '/' !in w
    requires !Contains(stem + ".j2" + w, "{{")
    ensures OutputFor(stem + ".j2" + w, renderName) == Generate(stem + ".j2" + w, stem)
  {
    SplitJ2(stem, w);
    var ext := ".j2" + w;
    assert StartsWith(ext, ".j2") by { assert ext[..3] == ".j2"; }
  }

  /** The package's rule takes `<stem>.j2<w>` as a template only when `w` is empty. */
  lemma PackageTemplateExtensions(stem: string, w: string)
    requires exists k :: 0 <= k < |TemplateProcessor.BaseName(stem)| && TemplateProcessor.BaseName(stem)[k] != '.'
    requires '.' !in w && '/' !in w
    ensures TemplateProcessor.IsTemplate(stem + ".j2" + w) <==> w == []
  {
    SplitJ2(stem, w);
    if w != [] {
      assert |".j2" + w| > 3;
    } else {
      assert ".j2" + w == ".j2";
    }
  }

  /** `_process_templates(template_dir, destination, template_vars)`: every visible file of
      the template directory is either rendered to its name without the `.j2…` extension
      or copied under its own name. */
  method ProcessTemplates(templates: Utils.Tree, renderName: string -> string) returns (outputs: seq<Output>)
    ensures var files := Utils.JoinEach(Utils.FilesOf(Visible(templates)));
            |outputs| == |files| && forall i :: 0 <= i < |files| ==> outputs[i] == OutputFor(files[i], renderName)
  {
    var files := ListAllFiles(templates);
    outputs := EachOutput(files, infile => OutputFor(infile, renderName));
  }

  /** The loop of `_process_templates` over the listed files, with the action taken for one
      file as a parameter. */
  method EachOutput(files: seq<string>, action: string -> Output) returns (outputs: seq<Output>)
    ensures |outputs| == |files| && forall i :: 0 <= i < |files| ==> outputs[i] == action(files[i])
  {
    outputs := [];
    for i := 0 to |files|
      invariant |outputs| == i
      invariant forall j :: 0 <= j < i ==> outputs[j] == action(files[j])
    {
      outputs := outputs + [action(files[i])];
    }
  }
}
