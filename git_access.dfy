/** kodi_game_scripting/git_access.py: the choices `GitHubOrg` and `GitRepo` make around
    PyGithub and GitPython. GitHub and the repository on disk are abstract values; the git
    commands the methods issue are functions on those values. */
module GitAccess {
  import opened Wrappers
  import opened Text

  /** What the callers get to know about a GitHub repository. */
  datatype GitHubRepo = GitHubRepo(name: string, cloneUrl: string, sshUrl: string)

  /** The exceptions that leave these methods. */
  datatype Failure = ValueError | GitCommandError | AttributeError

  // ===========================================================================
  // GitHubOrg: credentials

  /** What `github.Github(...)` is built with: a token, or user name and password (both
      `None` for anonymous access). */
  datatype Credentials = Token(token: string) | Basic(user: Option<string>, password: Option<string>)

  /** Calls on the `credentials.Credentials('github')` store. */
  datatype CredentialOp = Load | Save(user: Option<string>, password: Option<string>) | Clean

  /** The call inside the `try` block that raises `BadCredentialsException`, if any. */
  datatype FailPoint = NoFailure | AtConnect | AtRateLimit | AtOrganization

  /** How the construction went: the credentials used, the store calls made in order, and
      whether it succeeded (otherwise `ValueError` is raised). */
  datatype Connection = Connection(credentials: Credentials, ops: seq<CredentialOp>, ok: bool)

  /** `GITHUB_ACCESS_TOKEN` is used when it is set to a non-empty string. */
  predicate UsesToken(token: Option<string>) { token.Some? && token.value != "" }

  /** The stored credentials are in play: authentication asked for and no token. */
  predicate UsesStore(token: Option<string>, auth: bool) { auth && !UsesToken(token) }

  /** The `try` block of `GitHubOrg.__init__` and its `except BadCredentialsException`. */
  function Connect(token: Option<string>, auth: bool, stored: (Option<string>, Option<string>), fail: FailPoint): Connection {
    var creds :=
      if UsesToken(token) then Token(token.value)
      else if auth then Basic(stored.0, stored.1)
      else Basic(None, None);
    var loaded := if UsesStore(token, auth) then [Load] else [];
    var cleanup := if UsesStore(token, auth) then [Clean] else [];
    if fail == AtConnect || fail == AtRateLimit then Connection(creds, loaded + cleanup, false)
    else
      var saved := loaded + (if UsesStore(token, auth) then [Save(stored.0, stored.1)] else []);
      if fail == AtOrganization then Connection(creds, saved + cleanup, false)
      else Connection(creds, saved, true)
  }

  /** A non-empty token wins whatever `auth` says, and the store is never touched. */
  lemma TokenWins(token: Option<string>, auth: bool, stored: (Option<string>, Option<string>), fail: FailPoint)
    requires UsesToken(token)
    ensures Connect(token, auth, stored, fail).credentials == Token(token.value)
    ensures Connect(token, auth, stored, fail).ops == []
  {
  }

  /** Without a token and with `auth`, the stored credentials are loaded first and saved
      back exactly when the rate-limit call went through. */
  lemma StoredCredentials(token: Option<string>, auth: bool, stored: (Option<string>, Option<string>), fail: FailPoint)
    requires UsesStore(token, auth)
    ensures var c := Connect(token, auth, stored, fail);
            c.credentials == Basic(stored.0, stored.1) && |c.ops| >= 1 && c.ops[0] == Load
    ensures var c := Connect(token, auth, stored, fail);
            Save(stored.0, stored.1) in c.ops <==> (fail == NoFailure || fail == AtOrganization)
  {
  }

  /** Without a token and without `auth`, access is anonymous. */
  lemma Anonymous(token: Option<string>, stored: (Option<string>, Option<string>), fail: FailPoint)
    requires !UsesToken(token)
    ensures Connect(token, false, stored, fail).credentials == Basic(None, None)
    ensures Connect(token, false, stored, fail).ops == []
  {
  }

  /** On bad credentials the store is cleaned, as the last call, exactly when it was used;
      `ValueError` is raised on every failure and only then. */
  lemma BadCredentials(token: Option<string>, auth: bool, stored: (Option<string>, Option<string>), fail: FailPoint)
    ensures var c := Connect(token, auth, stored, fail);
            (Clean in c.ops <==> fail != NoFailure && UsesStore(token, auth)) &&
            (Clean in c.ops ==> c.ops[|c.ops| - 1] == Clean)
    ensures Connect(token, auth, stored, fail).ok <==> fail == NoFailure
  {
  }

  // ===========================================================================
  // GitHubOrg: repository listing and its cache

  /** The dict comprehension of `get_repos`: the organisation's repositories whose name the
      regular expression matches, by name (a later listing entry of the same name wins).
      `search(regex, name)` stands for `re.search(regex, name)` being truthy. */
  function Matching(listing: seq<GitHubRepo>, regex: string, search: (string, string) -> bool): (m: map<string, GitHubRepo>)
    ensures forall name :: name in m <==> exists i :: 0 <= i < |listing| && listing[i].name == name && search(regex, name)
    ensures forall name :: name in m ==> m[name].name == name
    ensures LastWins(listing, m)
  {
    if listing == [] then map[]
    else
      var init := listing[..|listing| - 1];
      var rest := Matching(init, regex, search);
      var last := listing[|listing| - 1];
      assert forall i :: 0 <= i < |listing| - 1 ==> init[i] == listing[i];
      var r := if search(regex, last.name) then rest[last.name := last] else rest;
      LastWinsStep(listing, rest, r);
      r
  }

  /** Every value of `m` is a listed repository that no later entry of the same name
      follows. */
  ghost predicate LastWins(listing: seq<GitHubRepo>, m: map<string, GitHubRepo>) {
    forall name :: name in m ==>
      exists i :: 0 <= i < |listing| && m[name] == listing[i] &&
                  forall j :: i < j < |listing| ==> listing[j].name != name
  }

  lemma LastWinsStep(listing: seq<GitHubRepo>, rest: map<string, GitHubRepo>, r: map<string, GitHubRepo>)
    requires listing != [] && LastWins(listing[..|listing| - 1], rest)
    requires var last := listing[|listing| - 1];
             r == rest[last.name := last] || (r == rest && last.name !in rest)
    ensures LastWins(listing, r)
  {
    var init := listing[..|listing| - 1];
    var last := listing[|listing| - 1];
    forall name | name in r
      ensures exists i :: 0 <= i < |listing| && r[name] == listing[i] &&
                          forall j :: i < j < |listing| ==> listing[j].name != name
    {
      if name == last.name && r == rest[last.name := last] {
        assert r[name] == listing[|listing| - 1];
      } else {
        assert name in rest && r[name] == rest[name] && name != last.name;
        var i :| 0 <= i < |init| && rest[name] == init[i] &&
                 forall j :: i < j < |init| ==> init[j].name != name;
        assert r[name] == listing[i];
      }
    }
  }

  lemma MatchingExample()
    ensures Matching([GitHubRepo("repo1", "clone_url1", "ssh_url1"), GitHubRepo("repo2", "clone_url2", "ssh_url2")],
                     "repo1", (regex, name) => name == "repo1")
         == map["repo1" := GitHubRepo("repo1", "clone_url1", "ssh_url1")]
  {
  }

  /** A repository added to the organisation shows up in every listing whose expression
      matches its name; a result cached before it was added does not contain it, which is
      why `create_repo` has to clear the cache. */
  lemma {:induction false} MatchingAfterCreate(listing: seq<GitHubRepo>, created: GitHubRepo, regex: string, search: (string, string) -> bool)
    requires search(regex, created.name)
    ensures var m := Matching(listing + [created], regex, search);
            created.name in m && m[created.name] == created
    ensures (forall i :: 0 <= i < |listing| ==> listing[i].name != created.name) ==>
            created.name !in Matching(listing, regex, search)
  {
    assert (listing + [created])[..|listing|] == listing;
  }

  /** `GitHubOrg`: the organisation handle (its repository listing stands for `_org`) and the
      `lru_cache` of `get_repos`, keyed by the regular expression. */
  class GitHubOrg {
    const org: string
    const credentials: Credentials
    const search: (string, string) -> bool
    var listing: seq<GitHubRepo>
    var cache: map<string, map<string, GitHubRepo>>

    /** Every cached result is what a fresh query would return. */
    ghost predicate Valid()
      reads this
    {
      forall regex :: regex in cache ==> cache[regex] == Matching(listing, regex, search)
    }

    constructor(org: string, credentials: Credentials, search: (string, string) -> bool, listing: seq<GitHubRepo>)
      ensures this.org == org && this.credentials == credentials && this.search == search
      ensures this.listing == listing && cache == map[]
      ensures Valid()
    {
      this.org := org;
      this.credentials := credentials;
      this.search := search;
      this.listing := listing;
      cache := map[];
    }

    /** `GitHubOrg(org, auth)`: the organisation object exists only if the connection went
        through; the credential-store calls are returned alongside. */
    static method Open(org: string, token: Option<string>, auth: bool, stored: (Option<string>, Option<string>),
                       fail: FailPoint, search: (string, string) -> bool, listing: seq<GitHubRepo>)
      returns (r: Result<GitHubOrg, Failure>, ops: seq<CredentialOp>)
      ensures ops == Connect(token, auth, stored, fail).ops
      ensures r.Ok? <==> Connect(token, auth, stored, fail).ok
      ensures r.Err? ==> r.error == ValueError
      ensures r.Ok? ==> fresh(r.value) && r.value.Valid() && r.value.cache == map[] && r.value.listing == listing
                        && r.value.credentials == Connect(token, auth, stored, fail).credentials
    {
      var c := Connect(token, auth, stored, fail);
      ops := c.ops;
      if !c.ok {
        return Err(ValueError), ops;
      }
      var o := new GitHubOrg(org, c.credentials, search, listing);
      r := Ok(o);
    }

    /** `get_repos(regex)`: answered from the cache when possible, otherwise queried and
        remembered. */
    method GetRepos(regex: string) returns (repos: map<string, GitHubRepo>)
      requires Valid()
      modifies this
      ensures Valid()
      ensures repos == Matching(listing, regex, search)
      ensures listing == old(listing) && cache == old(cache)[regex := repos]
    {
      if regex in cache {
        repos := cache[regex];
      } else {
        repos := Matching(listing, regex, search);
        cache := cache[regex := repos];
      }
    }

    /** `create_repo(name)`: GitHub creates the repository (with an initial commit) and
        assigns its URLs; the cache is cleared. */
    method CreateRepo(name: string, cloneUrl: string, sshUrl: string) returns (repo: GitHubRepo)
      requires Valid()
      modifies this
      ensures Valid()
      ensures repo == GitHubRepo(name, cloneUrl, sshUrl)
      ensures listing == old(listing) + [repo] && cache == map[]
    {
      repo := GitHubRepo(name, cloneUrl, sshUrl);
      listing := listing + [repo];
      cache := map[];
    }
  }

  // ===========================================================================
  // The abstract repository

  /** A commit: its id (computed by git), its message and the paths it changes. */
  datatype Commit = Commit(id: string, message: string, changes: set<string>)

  datatype TagRef = TagRef(target: string, message: Option<string>)

  /** The `origin` remote: fetch URL and push URL. */
  datatype Remote = Remote(url: string, pushUrl: string)

  /** The fetches issued on `origin`. */
  datatype Fetch = FetchBranch(branch: string) | FetchTags(prune: bool, pruneTags: bool)

  /** The pushes issued. */
  datatype Push = PushRef(refspec: string, force: bool) | PushTags

  /** A repository on disk. `commits` is the history of `HEAD`, oldest first (empty while
      `HEAD` is unborn); `upstream` the history of `origin/master` if that ref exists.
      Working-tree paths are split into staged changes, unstaged changes to tracked files,
      untracked files and ignored files. */
  datatype RepoState = RepoState(
    commits: seq<Commit>,
    upstream: Option<seq<Commit>>,
    staged: set<string>,
    unstaged: set<string>,
    untracked: set<string>,
    ignored: set<string>,
    origin: Option<Remote>,
    tags: map<string, TagRef>,
    fetches: seq<Fetch>,
    pushes: seq<Push>)

  /** What `origin` holds when fetched. */
  datatype Server = Server(master: seq<Commit>, tags: map<string, TagRef>)

  /** `git.Repo.init` of an empty directory. */
  function EmptyRepo(): RepoState {
    RepoState([], None, {}, {}, {}, {}, None, map[], [], [])
  }

  predicate HeadValid(g: RepoState) { g.commits != [] }

  /** GitPython's `is_dirty()`: staged or unstaged changes; untracked files do not count. */
  predicate IsDirty(g: RepoState) { g.staged != {} || g.unstaged != {} }

  /** Paths some commit of the history touched. */
  function Touched(cs: seq<Commit>): set<string> {
    if cs == [] then {} else Touched(cs[..|cs| - 1]) + cs[|cs| - 1].changes
  }

  function CommonPrefix(a: seq<Commit>, b: seq<Commit>): (k: nat)
    ensures k <= |a| && k <= |b| && a[..k] == b[..k]
    ensures k < |a| && k < |b| ==> a[k] != b[k]
  {
    if a == [] || b == [] || a[0] != b[0] then 0
    else
      var k := CommonPrefix(a[1..], b[1..]);
      assert a[..k + 1] == [a[0]] + a[1..][..k];
      assert b[..k + 1] == [b[0]] + b[1..][..k];
      k + 1
  }

  /** Paths that can differ between two histories: those touched after they part. */
  function ChangedBetween(a: seq<Commit>, b: seq<Commit>): set<string> {
    var k := CommonPrefix(a, b);
    Touched(a[k..]) + Touched(b[k..])
  }

  lemma ChangedBetweenSame(a: seq<Commit>)
    ensures ChangedBetween(a, a) == {}
  {
    assert a[|a|..] == [];
  }

  predicate Under(p: string, directory: string) {
    p == directory || StartsWith(p, directory + "/")
  }

  // ---------------------------------------------------------------------------
  // git commands

  /** `git add <directory>` (or `git add --all` for an empty directory) with `--force`
      taking ignored files too. */
  function Add(g: RepoState, directory: string, force: bool): RepoState {
    var pool := g.unstaged + g.untracked + (if force then g.ignored else {});
    var picked := set p | p in pool && (directory == "" || Under(p, directory));
    g.(staged := g.staged + picked, unstaged := g.unstaged - picked,
       untracked := g.untracked - picked, ignored := g.ignored - picked)
  }

  /** `git reset --soft origin/master`: fails without that ref; otherwise `HEAD` moves and the
      index keeps its content, so everything the histories differ in becomes staged. */
  function ResetSoft(g: RepoState): Result<RepoState, Failure> {
    match g.upstream
    case None => Err(GitCommandError)
    case Some(up) => Ok(g.(commits := up, staged := g.staged + ChangedBetween(g.commits, up)))
  }

  /** `git update-ref -d HEAD`: `HEAD` becomes unborn and the whole index is staged. */
  function DeleteHead(g: RepoState): RepoState {
    g.(commits := [], staged := g.staged + Touched(g.commits))
  }

  /** `index.commit(message)`: records the index as a new commit. */
  function IndexCommit(g: RepoState, message: string, id: string): RepoState {
    g.(commits := g.commits + [Commit(id, message, g.staged)], staged := {})
  }

  /** `git fetch origin master`. */
  function FetchMaster(g: RepoState, server: Server): RepoState {
    g.(upstream := Some(server.master), fetches := g.fetches + [FetchBranch("master")])
  }

  /** `git fetch --tags --prune [--prune-tags]`: with `--prune-tags` local tags the remote
      lacks are deleted; otherwise they are kept beside the fetched ones. */
  function FetchAllTags(g: RepoState, server: Server, pruneTags: bool): RepoState {
    g.(tags := if pruneTags then server.tags else g.tags + server.tags,
       fetches := g.fetches + [FetchTags(true, pruneTags)])
  }

  /** `git reset --hard origin/master`. */
  function ResetHard(g: RepoState, up: seq<Commit>): RepoState {
    g.(commits := up, staged := {}, unstaged := {})
  }

  /** `git rebase origin/master`: refused on a dirty tree or when a replayed commit
      conflicts; otherwise the local commits are replayed on top of the upstream. */
  function Rebase(g: RepoState, up: seq<Commit>, conflict: bool): Result<RepoState, Failure> {
    if IsDirty(g) || conflict then Err(GitCommandError)
    else Ok(g.(commits := up + g.commits[CommonPrefix(g.commits, up)..]))
  }

  /** `git reset`: the index is reset to `HEAD`; staged files return to the working tree,
      as modifications when tracked and as untracked files otherwise. */
  function ResetMixed(g: RepoState): RepoState {
    var tracked := Touched(g.commits);
    g.(staged := {}, unstaged := g.unstaged + (g.staged * tracked),
       untracked := g.untracked + (g.staged - tracked))
  }

  /** `git clean -xffd`: untracked and ignored files and directories are removed. */
  function CleanAll(g: RepoState): RepoState {
    g.(untracked := {}, ignored := {})
  }

  // ---------------------------------------------------------------------------
  // The methods' specifications

  /** `git version_info` compared with a release as `parse_version` does for plain
      releases: component by component, missing components counting as zero. */
  predicate VersionAtLeast(v: seq<nat>, w: seq<nat>)
    decreases |v| + |w|
  {
    if v == [] && w == [] then true
    else
      var a := if v == [] then 0 else v[0];
      var b := if w == [] then 0 else w[0];
      if a != b then a > b
      else VersionAtLeast(if v == [] then [] else v[1..], if w == [] then [] else w[1..])
  }

  lemma {:induction false} VersionAtLeastZeros(v: seq<nat>)
    ensures VersionAtLeast(v, [])
    decreases |v|
  {
    if v != [] {
      VersionAtLeastZeros(v[1..]);
    }
  }

  function Component(v: seq<nat>, i: nat): nat { if i < |v| then v[i] else 0 }

  /** `--prune-tags` is used from git 2.17.0 on: the major version is above 2, or it is 2
      and the minor version is at least 17. */
  lemma PruneTagsFrom2_17(v: seq<nat>)
    ensures VersionAtLeast(v, [2, 17, 0]) <==>
      Component(v, 0) > 2 || (Component(v, 0) == 2 && Component(v, 1) >= 17)
  {
    if v != [] && v[0] == 2 && |v| > 1 && v[1] == 17 {
      var r := v[2..];
      assert v[1..][1..] == r;
      assert VersionAtLeast(v, [2, 17, 0]) == VersionAtLeast(r, [0]);
      if r != [] && r[0] == 0 {
        VersionAtLeastZeros(r[1..]);
        assert VersionAtLeast(r, [0]) == VersionAtLeast(r[1..], []);
      }
    }
  }

  lemma PruneTagsExamples()
    ensures VersionAtLeast([2, 17, 0], [2, 17, 0])
    ensures !VersionAtLeast([2, 16, 0], [2, 17, 0])
    ensures VersionAtLeast([2, 20, 1], [2, 17, 0])
  {
    PruneTagsFrom2_17([2, 17, 0]);
    PruneTagsFrom2_17([2, 16, 0]);
    PruneTagsFrom2_17([2, 20, 1]);
  }

  /** `GitRepo.__init__`: an existing repository at the path is opened, otherwise one is
      initialised; a non-empty clone URL makes sure `origin` exists (an existing origin
      keeps its URL) and sets its push URL to the SSH URL. */
  function Opened(disk: map<string, RepoState>, path: string, repo: GitHubRepo): RepoState {
    var g := if path in disk then disk[path] else EmptyRepo();
    if repo.cloneUrl == "" then g
    else
      var url := if g.origin.Some? then g.origin.value.url else repo.cloneUrl;
      g.(origin := Some(Remote(url, repo.sshUrl)))
  }

  lemma OpenedRules(disk: map<string, RepoState>, path: string, repo: GitHubRepo)
    ensures var g := Opened(disk, path, repo);
            var before := if path in disk then disk[path] else EmptyRepo();
            (path !in disk ==> g.commits == [] && g.tags == map[]) &&
            (repo.cloneUrl == "" ==> g == before) &&
            (repo.cloneUrl != "" ==> g.origin.Some? && g.origin.value.pushUrl == repo.sshUrl) &&
            (repo.cloneUrl != "" && before.origin.None? ==> g.origin.value.url == repo.cloneUrl) &&
            (repo.cloneUrl != "" && before.origin.Some? ==> g.origin.value.url == before.origin.value.url) &&
            g.commits == before.commits && g.tags == before.tags && g.staged == before.staged &&
            g.unstaged == before.unstaged
  {
  }

  /** The outcome of a method that may raise: the state it leaves and the exception. */
  datatype Outcome = Outcome(state: RepoState, error: Option<Failure>)

  /** `fetch_and_reset(reset)`, given the git version, what `origin` holds and whether a
      rebase would conflict. */
  function FetchedAndReset(g: RepoState, reset: bool, version: seq<nat>, server: Server, conflict: bool): Outcome {
    if g.origin.None? then Outcome(CleanAll(ResetMixed(g)), None)
    else
      var fetched := FetchAllTags(FetchMaster(g, server), server, VersionAtLeast(version, [2, 17, 0]));
      var moved := if reset then Ok(ResetHard(fetched, server.master)) else Rebase(fetched, server.master, conflict);
      match moved
      case Err(e) => Outcome(fetched, Some(e))
      case Ok(m) => Outcome(CleanAll(ResetMixed(m)), None)
  }

  /** With an origin: `master` is fetched, then tags with pruning, `--prune-tags` exactly
      from git 2.17.0. Without an origin nothing is fetched. */
  lemma FetchCommands(g: RepoState, reset: bool, version: seq<nat>, server: Server, conflict: bool)
    ensures var o := FetchedAndReset(g, reset, version, server, conflict);
            (g.origin.Some? ==> o.state.fetches == g.fetches + [FetchBranch("master"), FetchTags(true, VersionAtLeast(version, [2, 17, 0]))]) &&
            (g.origin.None? ==> o.state.fetches == g.fetches && o.error.None?)
  {
  }

  /** A hard reset leaves exactly the upstream history and nothing but ignored-free,
      untracked-free, unmodified files; a rebase keeps local commits on top of it and
      fails only on a dirty tree or a conflict. Either way tags follow the remote. */
  lemma FetchAndResetWithOrigin(g: RepoState, reset: bool, version: seq<nat>, server: Server, conflict: bool)
    requires g.origin.Some?
    ensures var o := FetchedAndReset(g, reset, version, server, conflict);
            (reset ==> o.error.None? && o.state.commits == server.master) &&
            (!reset ==> (o.error.Some? <==> IsDirty(g) || conflict)) &&
            (!reset && o.error.None? ==> o.state.commits == server.master + g.commits[CommonPrefix(g.commits, server.master)..]) &&
            (o.error.None? ==> !IsDirty(o.state) && o.state.untracked == {} && o.state.ignored == {}) &&
            o.state.upstream == Some(server.master) &&
            (VersionAtLeast(version, [2, 17, 0]) ==> o.state.tags == server.tags) &&
            (forall t :: t in server.tags ==> t in o.state.tags && o.state.tags[t] == server.tags[t])
  {
  }

  /** Without an origin only `git reset` and `git clean -xffd` run: untracked and ignored
      files go, but modifications of tracked files stay, so the tree can remain dirty. */
  lemma FetchAndResetLocal(g: RepoState, reset: bool, version: seq<nat>, server: Server, conflict: bool)
    requires g.origin.None?
    ensures var o := FetchedAndReset(g, reset, version, server, conflict);
            o.error.None? && o.state.commits == g.commits && o.state.tags == g.tags &&
            o.state.untracked == {} && o.state.ignored == {} && o.state.staged == {} &&
            (IsDirty(o.state) <==> g.unstaged != {} || g.staged * Touched(g.commits) != {})
  {
  }

  /** Resetting is idempotent on the history and the working tree. */
  lemma ResetIdempotent(g: RepoState, version: seq<nat>, server: Server)
    requires g.origin.Some?
    ensures var once := FetchedAndReset(g, true, version, server, false).state;
            var twice := FetchedAndReset(once, true, version, server, false).state;
            twice.commits == once.commits && twice.staged == once.staged && twice.unstaged == once.unstaged &&
            twice.untracked == once.untracked && twice.ignored == once.ignored &&
            twice.upstream == once.upstream
  {
  }

  /** `commit(message, directory, force, squash)`; `id` is the id git gives the new commit. */
  function CommitChanges(g: RepoState, message: string, directory: string, force: bool, squash: bool, id: string): RepoState {
    var added := Add(g, directory, force);
    var based :=
      if !squash then added
      else match ResetSoft(added)
        case Ok(r) => r
        case Err(_) => DeleteHead(added);
    if IsDirty(based) then IndexCommit(based, message, id) else based
  }

  /** Committing while nothing is modified, untracked or (with `force`) ignored, without
      squashing, changes nothing. */
  lemma CommitNothing(g: RepoState, message: string, directory: string, force: bool, id: string)
    requires !IsDirty(g) && g.untracked == {} && (force ==> g.ignored == {})
    ensures CommitChanges(g, message, directory, force, false, id) == g
  {
    var added := Add(g, directory, force);
    assert added.staged == {} && added.unstaged == {};
    assert added == g;
  }

  /** Without squashing, every change the `add` picked up goes into one new commit on top of
      the old history, and only if there is something to commit. */
  lemma CommitAppends(g: RepoState, message: string, directory: string, force: bool, id: string)
    ensures var added := Add(g, directory, force);
            var c := CommitChanges(g, message, directory, force, false, id);
            (IsDirty(added) ==> c.commits == g.commits + [Commit(id, message, added.staged)] && c.staged == {}) &&
            (!IsDirty(added) ==> c == added)
  {
  }

  /** Squashing onto an existing `origin/master` leaves at most one commit above it. */
  lemma SquashOntoUpstream(g: RepoState, message: string, directory: string, force: bool, id: string)
    requires g.upstream.Some?
    ensures var c := CommitChanges(g, message, directory, force, true, id);
            c.commits == g.upstream.value || (|c.commits| == |g.upstream.value| + 1 &&
              c.commits[..|g.upstream.value|] == g.upstream.value && c.commits[|g.upstream.value|].id == id)
  {
    var c := CommitChanges(g, message, directory, force, true, id);
    var up := g.upstream.value;
    if |c.commits| == |up| + 1 {
      assert c.commits[..|up|] == up;
    }
  }

  /** Without `origin/master` the squash falls back to deleting `HEAD`: the result is a
      single root commit holding everything, or no commit at all. */
  lemma SquashWithoutUpstream(g: RepoState, message: string, directory: string, force: bool, id: string)
    requires g.upstream.None?
    ensures var c := CommitChanges(g, message, directory, force, true, id);
            var added := Add(g, directory, force);
            c.commits == [] || c.commits == [Commit(id, message, added.staged + Touched(g.commits))]
  {
  }

  /** A commit id of the history of `HEAD` or of `origin/master`. */
  predicate KnownCommit(g: RepoState, id: string) {
    (exists i :: 0 <= i < |g.commits| && g.commits[i].id == id) ||
    (g.upstream.Some? && exists i :: 0 <= i < |g.upstream.value| && g.upstream.value[i].id == id)
  }

  /** The commit a revision names: `HEAD`, then a tag name, then a commit id. */
  function ResolveRef(g: RepoState, rev: string): (r: Option<string>)
    ensures rev == "HEAD" ==> (r.Some? <==> HeadValid(g)) && (r.Some? ==> r.value == g.commits[|g.commits| - 1].id)
    ensures rev != "HEAD" && rev in g.tags ==> r == Some(g.tags[rev].target)
    ensures rev != "HEAD" && rev !in g.tags ==> (r.Some? <==> KnownCommit(g, rev)) && (r.Some? ==> r.value == rev)
  {
    if rev == "HEAD" then (if HeadValid(g) then Some(g.commits[|g.commits| - 1].id) else None)
    else if rev in g.tags then Some(g.tags[rev].target)
    else if KnownCommit(g, rev) then Some(rev)
    else None
  }

  /** `tag(name, message)`: GitPython's `create_tag(path, ref, message, force)` receives
      `message` as its `ref`, so the tag (a lightweight one, without message) is put on the
      revision `message` names, or on `HEAD` when it is `None`, replacing a tag of the
      same name; a revision git cannot resolve makes it fail. */
  function CreateTag(g: RepoState, name: string, message: Option<string>): Result<RepoState, Failure> {
    match ResolveRef(g, message.GetOr("HEAD"))
    case None => Err(GitCommandError)
    case Some(target) => Ok(g.(tags := g.tags[name := TagRef(target, None)]))
  }

  /** The tag points at the resolved revision, replacing a tag of the same name; other
      tags and the history stay; it fails exactly when the revision does not resolve. */
  lemma TagOverwrites(g: RepoState, name: string, message: Option<string>)
    ensures var r := CreateTag(g, name, message);
            var target := ResolveRef(g, message.GetOr("HEAD"));
            (r.Ok? <==> target.Some?) &&
            (r.Err? ==> r.error == GitCommandError) &&
            (r.Ok? ==> r.value.tags[name] == TagRef(target.value, None) &&
                       (forall t :: t != name ==> (t in r.value.tags <==> t in g.tags) &&
                                                  (t in g.tags ==> r.value.tags[t] == g.tags[t])) &&
                       r.value.commits == g.commits && r.value.upstream == g.upstream)
  {
  }

  /** Without a message the tag goes on `HEAD`; with an unborn `HEAD` git refuses. */
  lemma TagHead(g: RepoState, name: string)
    ensures var r := CreateTag(g, name, None);
            (r.Ok? <==> HeadValid(g)) &&
            (r.Ok? ==> r.value.tags[name] == TagRef(g.commits[|g.commits| - 1].id, None))
  {
  }

  /** A message is read as a revision: one naming no tag and no commit makes the call fail,
      whatever `HEAD` is; one naming a tag copies that tag's target. */
  lemma TagMessageIsRevision(g: RepoState, name: string, message: string)
    requires message != "HEAD"
    ensures message !in g.tags && !KnownCommit(g, message) ==> CreateTag(g, name, Some(message)) == Err(GitCommandError)
    ensures message in g.tags ==> CreateTag(g, name, Some(message)).Ok? &&
                                  CreateTag(g, name, Some(message)).value.tags[name].target == g.tags[message].target
  {
  }

  /** `push(branch, tags)`. */
  function PushBranch(g: RepoState, branch: string, tags: bool): Outcome {
    if IsDirty(g) then Outcome(g, Some(ValueError))
    else if g.origin.None? then Outcome(g, Some(AttributeError))
    else
      var pushed := g.pushes + [PushRef("HEAD:" + branch, branch != "master")];
      Outcome(g.(pushes := if tags then pushed + [PushTags] else pushed), None)
  }

  /** A dirty tree is refused before anything is pushed; otherwise `HEAD` goes to the branch,
      forced exactly when the branch is not `master`, and tags follow only on request. */
  lemma PushRules(g: RepoState, branch: string, tags: bool)
    ensures var o := PushBranch(g, branch, tags);
            (IsDirty(g) ==> o == Outcome(g, Some(ValueError))) &&
            (!IsDirty(g) && g.origin.Some? ==>
               o.error.None? && |o.state.pushes| == |g.pushes| + (if tags then 2 else 1) &&
               o.state.pushes[..|g.pushes|] == g.pushes &&
               o.state.pushes[|g.pushes|] == PushRef("HEAD:" + branch, branch != "master") &&
               (tags ==> o.state.pushes[|g.pushes| + 1] == PushTags)) &&
            o.state.commits == g.commits && o.state.tags == g.tags
  {
  }

  lemma PushExample(g: RepoState)
    requires !IsDirty(g) && g.origin.Some?
    ensures PushBranch(g, "branch", false).state.pushes == g.pushes + [PushRef("HEAD:branch", true)]
    ensures PushBranch(g, "master", true).state.pushes == g.pushes + [PushRef("HEAD:master", false), PushTags]
  {
    assert "HEAD:" + "branch" == "HEAD:branch" && "branch" != "master";
    assert "HEAD:" + "master" == "HEAD:master";
  }

  /** What `diff()` returns: the changes between `origin/master` and `HEAD`, or the text of
      `git show` (never empty) when there is no `origin/master`. */
  datatype DiffText = TreeDiff(paths: set<string>) | ShowHead(id: string)

  predicate DiffEmpty(d: DiffText) { d.TreeDiff? && d.paths == {} }

  /** `diff()`: `head.commit` raises `ValueError` on an unborn `HEAD`. */
  function Diff(g: RepoState): Result<DiffText, Failure> {
    if !HeadValid(g) then Err(ValueError)
    else match g.upstream
      case None => Ok(ShowHead(g.commits[|g.commits| - 1].id))
      case Some(up) => Ok(TreeDiff(ChangedBetween(up, g.commits)))
  }

  /** Right after a hard reset to a non-empty upstream there is nothing to diff. */
  lemma DiffAfterReset(g: RepoState, version: seq<nat>, server: Server)
    requires g.origin.Some? && server.master != []
    ensures Diff(FetchedAndReset(g, true, version, server, false).state) == Ok(TreeDiff({}))
  {
    ChangedBetweenSame(server.master);
  }

  /** A diff is empty only when `origin/master` exists and no commit after the shared
      history touches anything. */
  lemma DiffEmptyMeans(g: RepoState)
    requires Diff(g).Ok? && DiffEmpty(Diff(g).value)
    ensures g.upstream.Some? && ChangedBetween(g.upstream.value, g.commits) == {}
  {
  }

  /** `describe()`: `git describe --tags --always` (computed by git, given as
      `gitDescribe`), or the empty string when git fails, which it does on an unborn
      `HEAD` only. */
  function Describe(g: RepoState, gitDescribe: (seq<Commit>, map<string, TagRef>) -> string): (r: string)
    ensures !HeadValid(g) ==> r == ""
    ensures HeadValid(g) ==> r == gitDescribe(g.commits, g.tags)
  {
    if HeadValid(g) then gitDescribe(g.commits, g.tags) else ""
  }

  /** `get_hexsha()`: the id of `HEAD`; `head.object` raises `ValueError` on an unborn `HEAD`. */
  function Hexsha(g: RepoState): (r: Result<string, Failure>)
    ensures r.Ok? <==> HeadValid(g)
    ensures r.Ok? ==> r.value == g.commits[|g.commits| - 1].id
  {
    if HeadValid(g) then Ok(g.commits[|g.commits| - 1].id) else Err(ValueError)
  }

  // ===========================================================================
  // GitRepo

  /** `GitRepo`: the GitHub repository it mirrors, its path, and the repository handle. */
  class GitRepo {
    const githubRepo: GitHubRepo
    const path: string
    var git: RepoState

    /** `is_git_repo(path)`: git can open a repository there. */
    static predicate IsGitRepo(disk: map<string, RepoState>, path: string) {
      path in disk
    }

    constructor(repo: GitHubRepo, path: string, disk: map<string, RepoState>)
      ensures githubRepo == repo && this.path == JoinPath(path, repo.name)
      ensures git == Opened(disk, JoinPath(path, repo.name), repo)
    {
      githubRepo := repo;
      var p := JoinPath(path, repo.name);
      this.path := p;
      var g: RepoState;
      if !IsGitRepo(disk, p) {
        g := EmptyRepo();
      } else {
        g := disk[p];
      }
      if repo.cloneUrl != "" {
        var url := repo.cloneUrl;
        if g.origin.Some? {
          url := g.origin.value.url;
        }
        g := g.(origin := Some(Remote(url, repo.sshUrl)));
      }
      git := g;
    }

    method FetchAndReset(reset: bool, version: seq<nat>, server: Server, conflict: bool) returns (error: Option<Failure>)
      modifies this
      ensures Outcome(git, error) == FetchedAndReset(old(git), reset, version, server, conflict)
    {
      error := None;
      if git.origin.Some? {
        git := FetchMaster(git, server);
        if VersionAtLeast(version, [2, 17, 0]) {
          git := FetchAllTags(git, server, true);
        } else {
          git := FetchAllTags(git, server, false);
        }
        if reset {
          git := ResetHard(git, server.master);
        } else {
          var rebased := Rebase(git, server.master, conflict);
          if rebased.Err? {
            return Some(rebased.error);
          }
          git := rebased.value;
        }
      }
      git := ResetMixed(git);
      git := CleanAll(git);
    }

    function GetHexsha(): (r: Result<string, Failure>)
      reads this
      ensures r == Hexsha(git)
    {
      Hexsha(git)
    }

    method Commit(message: string, directory: string, force: bool, squash: bool, id: string)
      modifies this
      ensures git == CommitChanges(old(git), message, directory, force, squash, id)
    {
      git := Add(git, directory, force);
      if squash {
        var moved := ResetSoft(git);
        if moved.Ok? {
          git := moved.value;
        } else {
          git := DeleteHead(git);
        }
      }
      if IsDirty(git) {
        git := IndexCommit(git, message, id);
      }
    }

    /** `tag(tag, message)`: `message` reaches git as the revision to tag. */
    method Tag(name: string, message: Option<string>) returns (error: Option<Failure>)
      modifies this
      ensures CreateTag(old(git), name, message).Ok? ==> error.None? && git == CreateTag(old(git), name, message).value
      ensures CreateTag(old(git), name, message).Err? ==> error == Some(GitCommandError) && git == old(git)
    {
      var r := CreateTag(git, name, message);
      if r.Ok? {
        git := r.value;
        error := None;
      } else {
        error := Some(r.error);
      }
    }

    function GetDiff(): (r: Result<DiffText, Failure>)
      reads this
      ensures r == Diff(git)
    {
      Diff(git)
    }

    function GetDescribe(gitDescribe: (seq<Commit>, map<string, TagRef>) -> string): (r: string)
      reads this
      ensures r == Describe(git, gitDescribe)
    {
      Describe(git, gitDescribe)
    }

    method Push(branch: string, tags: bool) returns (error: Option<Failure>)
      modifies this
      ensures Outcome(git, error) == PushBranch(old(git), branch, tags)
    {
      if IsDirty(git) {
        return Some(ValueError);
      }
      if git.origin.None? {
        return Some(AttributeError);
      }
      git := git.(pushes := git.pushes + [PushRef("HEAD:" + branch, branch != "master")]);
      if tags {
        git := git.(pushes := git.pushes + [PushTags]);
      }
      error := None;
    }
  }
}
