# kodi-game-scripting in Dafny

kodi-game-scripting keeps the Kodi game add-ons for libretro cores (`game.libretro.<core>`)
in step with their templates. For each configured core it builds an `info` record, renders
Jinja2 templates into the add-on's directory, reads metadata (the libretro `.info` file, image
assets, the core's git revision, the package version out of `git describe`), commits the
result, and bumps, tags and pushes the versions that changed. GitHub and git are reached
through two small wrapper classes.

This project models the decision logic of that core and proves what it promises:

- `wrappers.dfy`: `Option` and `Result`.
- `text.dfy`: the pieces of Python `str`/`int` the scripts use. These are decimal numerals,
  `int()` and `str()`, `strip`, `in`, `startswith`, `rsplit`, `partition`, `posixpath.join`,
  string order and `sorted`.
- `shlex.dfy`: POSIX `shlex.split`, as used on info-file values.
- `utils.dfy`: `purify` over a JSON-like value, `xstr` with a strict UTF-8 decoder, and
  `list_all_files` as a loop over an abstract `os.walk` tree.
- `template_processor.dfy`: the `escape_xml` and `get_list` filters, `os.path.splitext`, and
  the `TemplateProcessor.process` loop over a map from output paths to contents.
- `git_access.dfy`: credential choice, `GitHubOrg` with its per-regex cache, an abstract
  repository state, and the `GitRepo` class whose methods change it.
- `game_addons.dfy`: version derivation (revision, bump, tag), the `info` defaults, the
  info-file parser, the asset sorting, the `KodiGameAddon` class, and the order in which
  `KodiGameAddons` prepares, commits, bumps, tags and pushes the add-ons.
- `legacy_addons.dfy`: the older root script. It has a `list_all_files` that prunes hidden
  entries, the directory filter, the add-on name and config lookup, and the `.j2` naming rule.

Where repository state changes in place, a Dafny class holds that state. Each method's
`ensures` ties the new state to a specification function of the old state, and the
properties are lemmas about those functions.

External code is passed in as parameters:

- regular-expression search: `search`;
- Jinja2 rendering: `renderName`, `render`;
- `versions.AddonVersion.get`: `addonVersion`;
- `git describe`: `gitDescribe`;
- the time stamp: `now`;
- commit ids: `id`;
- the libretro library extension: `ext`;
- the git version: `version`;
- the remote's branch and tags: `server`;
- a rebase conflict: `conflict`;
- the files on disk: maps and `Utils.Tree` values.

Notes on the code:

- `get_hexsha`, `tag`, `diff` and `describe` have no `EMPTY_SHA` or head-validity guards.
  On an unborn `HEAD`, `get_hexsha` and `diff` raise `ValueError`, `tag` raises a
  `GitCommandError`, and `describe` returns `''` because git itself fails.
- With git older than 2.17.0, tags that exist only locally survive the fetch.
- Without an `origin`, `fetch_and_reset` runs only `git reset` and `git clean -xffd`. Tracked
  modifications survive, so the tree is not left pristine (`GitAccess.FetchAndResetLocal`).
- `load_info_file` parses the `.info` file itself; there is no `LibretroSuper` helper.
- `tag(tag, message)` calls GitPython's `create_tag(tag, message, force=True)`, whose second
  positional parameter is `ref`. The message is therefore the revision the tag is put on,
  and the tag itself is a lightweight one; `None` tags `HEAD`.
- `load_assets` compares the listed paths with `<name>/resources/icon.png`,
  `<name>/resources/fanart.jpg` and `<name>/resources/screenshot`. The unit test lists the
  files with that prefix, and the model keeps the comparison as written.

## Model

| member | source | states |
|---|---|---|
| Text.DigitChar | kodi_game_scripting/process_game_addons.py:375 | the digit character for a value below ten is a digit and has that value |
| Text.NatToString | kodi_game_scripting/process_game_addons.py:375 | `str(n)` of a natural number is a numeral without a leading zero unless the number is 0 |
| Text.ValueOfNatToString | kodi_game_scripting/process_game_addons.py:375 | reading the decimal text of n gives back n |
| Text.ParseIntIntToString | kodi_game_scripting/process_game_addons.py:375 | `int(str(i)) == i` for every integer, negative ones included |
| Text.ParseIntNumeral | kodi_game_scripting/process_game_addons.py:375 | `int()` of a digit string is its decimal value |
| Text.ParseIntNegative | kodi_game_scripting/process_game_addons.py:375 | `int()` of `-` and a digit string is minus its value |
| Text.LStrip | kodi_game_scripting/process_game_addons.py:332 | the result is a suffix of the input that starts with a non-space, and what was dropped is all white space |
| Text.RStrip | kodi_game_scripting/process_game_addons.py:332 | the result is a prefix of the input that ends with a non-space, and what was dropped is all white space |
| Text.StripEnds | kodi_game_scripting/process_game_addons.py:332 | `strip` leaves a string alone when it has no white space at either end |
| Text.ContainsConcat | process_game_addons.py:86 | a string contains every substring placed inside it |
| Text.ContainsCharIff | kodi_game_scripting/template_processor.py:99 | the substring test for a one-character string is membership of that character |
| Text.IndexOf | kodi_game_scripting/process_game_addons.py:331 | the first occurrence of a character, or none if it does not occur |
| Text.LastIndexOf | kodi_game_scripting/process_game_addons.py:373 | the last occurrence of a character, or none if it does not occur |
| Text.RSplitOnce | kodi_game_scripting/process_game_addons.py:373 | `rsplit(c, 1)` gives two parts around a separator, the right one free of it; no split exactly when the separator is absent |
| Text.RSplitOnceOfJoin | kodi_game_scripting/process_game_addons.py:373 | splitting `a + c + b` with `b` free of `c` gives back `a` and `b` |
| Text.Partition | kodi_game_scripting/process_game_addons.py:331 | `partition` splits at the first separator; without a separator the whole string is the head and the tail is empty |
| Text.LessEqTotal | kodi_game_scripting/process_game_addons.py:114 | Python's string order is total |
| Text.LessEqTransitive | kodi_game_scripting/process_game_addons.py:114 | Python's string order is transitive |
| Text.LessEqAntisymmetric | kodi_game_scripting/process_game_addons.py:114 | Python's string order is antisymmetric |
| Text.Insert | kodi_game_scripting/process_game_addons.py:114 | inserting into a sorted list keeps it sorted and adds exactly that element |
| Text.Sort | kodi_game_scripting/process_game_addons.py:114 | `sorted` returns a sorted permutation of its input |
| Shlex.LexWordRun | kodi_game_scripting/process_game_addons.py:333 | ordinary characters extend the current shell word |
| Shlex.LexDoubleRun | kodi_game_scripting/process_game_addons.py:333 | inside double quotes everything but `"` and `\` is taken literally, blanks included |
| Shlex.LexBlankRun | kodi_game_scripting/process_game_addons.py:333 | blanks between words are skipped |
| Shlex.SplitBlank | kodi_game_scripting/process_game_addons.py:333 | a blank-only value has no words, so `[0]` on it raises |
| Shlex.SplitPlain | kodi_game_scripting/process_game_addons.py:333 | a plain word between blanks splits to itself |
| Shlex.SplitQuoted | kodi_game_scripting/process_game_addons.py:333 | a double-quoted value splits to its content, spaces kept |
| Shlex.SplitQuotedExample | kodi_game_scripting/process_game_addons.py:333 | `"Nintendo - NES"` followed by a newline splits to `Nintendo - NES` |
| Shlex.SplitPlainExample | kodi_game_scripting/process_game_addons.py:333 | ` 1.2` followed by a newline splits to `1.2` |
| Shlex.SplitUnclosedExample | kodi_game_scripting/process_game_addons.py:333 | an unclosed quote after the first word still makes the split fail |
| Utils.Purify | kodi_game_scripting/utils.py:83-94 | `purify` keeps the value's type and leaves nothing empty or falsy at any depth |
| Utils.PurifyItems | kodi_game_scripting/utils.py:91-93 | every element kept in a list, tuple or set is truthy and clean |
| Utils.PurifyEntries | kodi_game_scripting/utils.py:88-90 | every entry kept in a dict has a truthy, clean value |
| Utils.PurifyItemsIsSurvivors | kodi_game_scripting/utils.py:91-93 | the kept elements are, in order, the purified elements that pass the keep test |
| Utils.PurifyEntriesIsSurviving | kodi_game_scripting/utils.py:88-90 | the kept entries are, in key order, the keys with purified values that pass the keep test |
| Utils.SurvivorsAppend | kodi_game_scripting/utils.py:91-93 | filtering elements distributes over concatenation |
| Utils.SurvivingEntriesAppend | kodi_game_scripting/utils.py:88-90 | filtering entries distributes over concatenation |
| Utils.PurifySequence | kodi_game_scripting/utils.py:91-93 | a sequence purifies piece by piece, and one element survives iff it is non-empty and purifies to something truthy |
| Utils.PurifyDict | kodi_game_scripting/utils.py:88-90 | a dict purifies entry by entry in key order and keeps its ordered or plain type |
| Utils.KeepIffTruthy | kodi_game_scripting/utils.py:85-90 | an element is kept iff its purified value is truthy |
| Utils.PurifyScalar | kodi_game_scripting/utils.py:94 | scalars are returned unchanged |
| Utils.PurifyClean | kodi_game_scripting/utils.py:83-94 | a value with nothing empty inside is left unchanged |
| Utils.PurifyItemsClean | kodi_game_scripting/utils.py:91-93 | a clean sequence keeps all its elements |
| Utils.PurifyEntriesClean | kodi_game_scripting/utils.py:88-90 | a clean dict keeps all its entries |
| Utils.PurifyIdempotent | kodi_game_scripting/utils.py:83-94 | purifying twice is purifying once |
| Utils.PurifyExampleList | tests/unit/test_utils.py:88 | `['test', [None, None]]` purifies to `['test']` |
| Utils.PurifyExampleNestedDict | tests/unit/test_utils.py:89 | `{k1: {k2: s}, k3: {}}` purifies to `{k1: {k2: s}}` for a non-empty `s` |
| Utils.PurifyExampleAllEmpty | tests/unit/test_utils.py:90 | `{'l1': [{}, {}], 'l2': {}}` purifies to `{}` |
| Utils.DecodeFirst | kodi_game_scripting/utils.py:101 | decoding one UTF-8 character consumes between one byte and the whole input |
| Utils.EncodeChar | kodi_game_scripting/utils.py:101 | a character encodes to one to four bytes |
| Utils.DecodeTwo | kodi_game_scripting/utils.py:101 | a two-byte encoding decodes back to its character |
| Utils.DecodeThree | kodi_game_scripting/utils.py:101 | a three-byte encoding decodes back to its character |
| Utils.DecodeFour | kodi_game_scripting/utils.py:101 | a four-byte encoding decodes back to its character |
| Utils.DecodeFirstEncodeChar | kodi_game_scripting/utils.py:101 | the first character of an encoding decodes back, consuming exactly its bytes |
| Utils.DecodeEncode | kodi_game_scripting/utils.py:101 | decoding the UTF-8 encoding of a string gives the string back |
| Utils.Xstr | kodi_game_scripting/utils.py:97-101 | `None` gives `''`; bytes decode iff they are valid UTF-8; the encoding of a string gives that string, and a decoded string re-encodes to the bytes |
| Utils.XstrExample | tests/unit/test_utils.py:97 | `b'test'` gives `'test'` |
| Utils.EncodeDecodedFirst | kodi_game_scripting/utils.py:101 | the bytes of one decoded scalar value are its UTF-8 encoding |
| Utils.EncodeTwoBytes | kodi_game_scripting/utils.py:101 | a valid two-byte sequence re-encodes to itself |
| Utils.EncodeThreeBytes | kodi_game_scripting/utils.py:101 | a valid three-byte sequence re-encodes to itself |
| Utils.EncodeFourBytes | kodi_game_scripting/utils.py:101 | a valid four-byte sequence re-encodes to itself |
| Utils.EncodeDecode | kodi_game_scripting/utils.py:101 | bytes that decode are the encoding of the decoded string |
| Utils.PrefixedByAt | kodi_game_scripting/utils.py:77-79 | prefixing keeps the number of paths and prefixes each one |
| Utils.PrefixedByEmpty | kodi_game_scripting/utils.py:77 | the walk root's files carry no prefix, since the relative path of the root is `.` and normalises away |
| Utils.SingletonsAt | kodi_game_scripting/utils.py:78 | each file name becomes a one-component path |
| Utils.DirFilesOfMembers | kodi_game_scripting/utils.py:76 | a path lies below the subdirectories iff it starts with one's name and continues below it |
| Utils.FilesOfIffFileAt | kodi_game_scripting/utils.py:76 | the walk lists a path iff a file sits there in the tree |
| Utils.JoinEachAppend | kodi_game_scripting/utils.py:79 | joining paths distributes over concatenation |
| Utils.SingletonsAppend | kodi_game_scripting/utils.py:78 | one-component paths distribute over concatenation |
| Utils.PendingFilesAppend | kodi_game_scripting/utils.py:76 | the files still to be walked distribute over concatenation of pending work |
| Utils.PendingSizeAppend | kodi_game_scripting/utils.py:76 | the size of pending work adds up |
| Utils.PrefixedByPrefixed | kodi_game_scripting/utils.py:77 | prefixing by `rel + [name]` is prefixing by `name` and then by `rel` |
| Utils.PrefixedByAppend | kodi_game_scripting/utils.py:77-79 | prefixing distributes over concatenation |
| Utils.ChildrenFiles | kodi_game_scripting/utils.py:76 | the subdirectories pushed for later hold exactly the files below them |
| Utils.VisitFileStep | kodi_game_scripting/utils.py:78-79 | appending one file extends the listing by its path |
| Utils.VisitDirStep | kodi_game_scripting/utils.py:76-79 | one directory's files followed by everything below and after it are the remaining walk |
| Utils.VisitDirShrinks | kodi_game_scripting/utils.py:76 | each visited directory makes the pending work smaller |
| Utils.ListDirectory | kodi_game_scripting/utils.py:78-79 | one directory contributes its file names under its relative path, in order |
| Utils.ListAllFiles | kodi_game_scripting/utils.py:73-80 | the loop returns exactly the walk's files, top-down, each relative to the root |
| Utils.JoinEachSingletons | kodi_game_scripting/utils.py:77-79 | root files are listed by their bare names |
| Utils.RootFilesFirst | tests/unit/test_utils.py:76-83 | the listing starts with the root's own files, without any prefix |
| Utils.JoinEachMembers | kodi_game_scripting/utils.py:79 | a string is listed iff some listed path joins to it |
| Utils.ListedIffFile | kodi_game_scripting/utils.py:73-80 | a string is listed iff it is the joined path of a file in the tree |
| TemplateProcessor.ReplaceCharAppend | kodi_game_scripting/template_processor.py:48-54 | `str.replace` distributes over concatenation |
| TemplateProcessor.ReplaceCharAbsent | kodi_game_scripting/template_processor.py:48-54 | replacing an absent character changes nothing |
| TemplateProcessor.EscapeXmlAppend | kodi_game_scripting/template_processor.py:46-54 | `escape_xml` distributes over concatenation |
| TemplateProcessor.ReplaceCharSingle | kodi_game_scripting/template_processor.py:48-54 | replacement on one character replaces it or leaves it |
| TemplateProcessor.EntityStable | kodi_game_scripting/template_processor.py:49-54 | the later replacements never touch an entity already produced |
| TemplateProcessor.EscapeXmlChar | kodi_game_scripting/template_processor.py:46-54 | on one character the chain of replaces is the five predefined entities of section 4.6 of XML 1.0 |
| TemplateProcessor.EscapeXmlIsPerChar | kodi_game_scripting/template_processor.py:46-54 | because `&` goes first, the chain equals a per-character substitution |
| TemplateProcessor.EscapeEachNoMarkup | kodi_game_scripting/template_processor.py:46-54 | the per-character substitution leaves no `<`, `>`, `"` or `'` |
| TemplateProcessor.EscapeXmlNoMarkup | kodi_game_scripting/template_processor.py:46-54 | the output of `escape_xml` holds no `<`, `>`, `"` or `'` |
| TemplateProcessor.EscapeXmlPlain | kodi_game_scripting/template_processor.py:46-54 | text without the five special characters is left unchanged |
| TemplateProcessor.Differs | kodi_game_scripting/template_processor.py:46-54 | a string that differs from a prefix at some position does not start with it |
| TemplateProcessor.UnescapeAmp | kodi_game_scripting/template_processor.py:49 | the reader of `&amp;` gives `&` |
| TemplateProcessor.UnescapeApos | kodi_game_scripting/template_processor.py:50 | the reader of `&apos;` gives `'` |
| TemplateProcessor.UnescapeQuot | kodi_game_scripting/template_processor.py:51 | the reader of `&quot;` gives `"` |
| TemplateProcessor.UnescapeLt | kodi_game_scripting/template_processor.py:52 | the reader of `&lt;` gives `<` |
| TemplateProcessor.UnescapeGt | kodi_game_scripting/template_processor.py:53 | the reader of `&gt;` gives `>` |
| TemplateProcessor.UnescapeEscapeChar | kodi_game_scripting/template_processor.py:46-54 | an XML reader recovers each escaped character |
| TemplateProcessor.UnescapeEscape | kodi_game_scripting/template_processor.py:46-54 | an XML reader recovers the original text from `escape_xml` |
| TemplateProcessor.UnescapeEscapeEach | kodi_game_scripting/template_processor.py:46-54 | the same round trip, for the per-character form |
| TemplateProcessor.GetList | kodi_game_scripting/template_processor.py:33-35 | the result is a list; it is the input iff the input is a list, otherwise it is the one-element list of the input |
| TemplateProcessor.GetListIdempotent | tests/unit/test_templateprocessor.py:28-34 | applying `get_list` twice is applying it once |
| TemplateProcessor.SplitExt | kodi_game_scripting/template_processor.py:89 | `splitext` cuts the path in two; the extension is empty or a dot without further dots or slashes |
| TemplateProcessor.BaseNameHasNoSlash | kodi_game_scripting/process_game_addons.py:349 | a base name has no slash |
| TemplateProcessor.BaseNameOf | kodi_game_scripting/process_game_addons.py:349 | the base name of `d/f` is `f` |
| TemplateProcessor.SplitExtOf | kodi_game_scripting/template_processor.py:89 | a stem with a name and an extension split back apart |
| TemplateProcessor.ExtensionDot | kodi_game_scripting/template_processor.py:89 | the extension's dot is the last one |
| TemplateProcessor.StemHasName | kodi_game_scripting/template_processor.py:89 | a stem whose base name is not all dots has a non-dot after its last slash |
| TemplateProcessor.LastIndexOfExtend | kodi_game_scripting/template_processor.py:89 | appending text without the character keeps its last occurrence |
| TemplateProcessor.SplitExtTemplateExample | kodi_game_scripting/template_processor.py:89-94 | `addon.xml.j2` splits into `addon.xml` and `.j2` |
| TemplateProcessor.SplitExtDotFileExample | kodi_game_scripting/template_processor.py:89 | a leading-dot name `.j2` has no extension |
| TemplateProcessor.StepTemplate | kodi_game_scripting/template_processor.py:92-120 | a `.j2` template goes to its name without `.j2`; rendered content is written there, empty content removes the file; no other file changes |
| TemplateProcessor.StepCopy | kodi_game_scripting/template_processor.py:122-128 | any other file is copied from the template directory under its own name, and nothing else changes |
| TemplateProcessor.StepFails | kodi_game_scripting/template_processor.py:104-110 | the loop fails exactly on a `.po` template whose existing output has no creation date |
| TemplateProcessor.StepVars | kodi_game_scripting/template_processor.py:99-110 | the loop changes only the `xml` and `datetime` variables |
| TemplateProcessor.TemplateVarsKeys | kodi_game_scripting/template_processor.py:99-110 | reading existing outputs sets only `xml` and `datetime` |
| TemplateProcessor.RunFrame | kodi_game_scripting/template_processor.py:82-128 | a path that no input file targets is left as it was |
| TemplateProcessor.ProcessFile | kodi_game_scripting/template_processor.py:84-128 | one iteration of the loop does what the step function says |
| TemplateProcessor.Process | kodi_game_scripting/template_processor.py:61-128 | the loop over the listed template files, stopping at the first failure |
| GitAccess.TokenWins | kodi_game_scripting/git_access.py:40-42 | a non-empty access token is used whatever `auth` says, and the credential store is not touched |
| GitAccess.StoredCredentials | kodi_game_scripting/git_access.py:44-54 | with `auth` and no token the stored credentials are loaded; they are saved back iff the rate-limit call succeeded |
| GitAccess.Anonymous | kodi_game_scripting/git_access.py:47-49 | without `auth` or token the access is anonymous and the store is not touched |
| GitAccess.BadCredentials | kodi_game_scripting/git_access.py:56-59 | stored credentials are cleaned, as the last store call, iff they were used and authentication failed; the connection succeeds iff nothing failed |
| GitAccess.Matching | kodi_game_scripting/git_access.py:65-68 | a name is in the result iff an org repo has it and the regex finds it; its value is the last listed repo of that name |
| GitAccess.LastWinsStep | kodi_game_scripting/git_access.py:66-68 | a later dict entry of the same name replaces the earlier one |
| GitAccess.MatchingExample | tests/unit/test_gitaccess.py:99-108 | of `repo1` and `repo2`, the query for `repo1` returns only `repo1` |
| GitAccess.MatchingAfterCreate | kodi_game_scripting/git_access.py:71-75 | a created repo that matches is found by the next query; it was not there before |
| GitAccess.GitHubOrg.constructor | kodi_game_scripting/git_access.py:37-55 | an organisation handle with the chosen credentials and an empty cache |
| GitAccess.GitHubOrg.Open | kodi_game_scripting/git_access.py:37-59 | the handle exists iff the connection succeeded; otherwise `ValueError`; the store calls are those of the credential choice |
| GitAccess.GitHubOrg.GetRepos | kodi_game_scripting/git_access.py:61-69 | the matching repos, answered from the cache or queried and remembered; every cached value stays a correct answer |
| GitAccess.GitHubOrg.CreateRepo | kodi_game_scripting/git_access.py:71-75 | the new repo is added to the organisation and the whole cache is cleared |
| GitAccess.CommonPrefix | kodi_game_scripting/git_access.py:160-161 | the length of the longest common prefix of two histories |
| GitAccess.ChangedBetweenSame | kodi_game_scripting/git_access.py:160-161 | a history diffed against itself changes nothing |
| GitAccess.VersionAtLeastZeros | kodi_game_scripting/git_access.py:117-119 | every version is at least the empty version |
| GitAccess.PruneTagsFrom2_17 | kodi_game_scripting/git_access.py:117-122 | `--prune-tags` is used iff the major version is above 2, or it is 2 and the minor version is at least 17 |
| GitAccess.PruneTagsExamples | tests/unit/test_gitaccess.py:195-253 | 2.17.0 and 2.20.1 prune tags, 2.16.0 does not |
| GitAccess.OpenedRules | kodi_game_scripting/git_access.py:94-109 | a missing repo is initialised empty; with a clone URL an existing origin keeps its URL, a missing one is created with the clone URL, and the push URL becomes the SSH URL; nothing else changes |
| GitAccess.FetchCommands | kodi_game_scripting/git_access.py:113-122 | with an origin, `master` is fetched and then the tags with prune, and prune-tags from git 2.17.0 on; without an origin nothing is fetched |
| GitAccess.FetchAndResetWithOrigin | kodi_game_scripting/git_access.py:111-133 | a reset puts the branch on the remote's `master`; a rebase fails iff the tree is dirty or conflicts, otherwise it replays the local commits on top; afterwards the tree is clean; remote tags are always present |
| GitAccess.FetchAndResetLocal | kodi_game_scripting/git_access.py:129-133 | without an origin only the index reset and the clean run; history and tags stay, and tracked modifications survive |
| GitAccess.ResetIdempotent | kodi_game_scripting/git_access.py:111-133 | fetching and resetting twice leaves the tree as once |
| GitAccess.CommitNothing | kodi_game_scripting/git_access.py:139-151 | committing a clean tree changes nothing |
| GitAccess.CommitAppends | kodi_game_scripting/git_access.py:141-151 | without squash a commit of the staged paths is appended iff staging left the tree dirty |
| GitAccess.SquashOntoUpstream | kodi_game_scripting/git_access.py:145-151 | a squash soft-resets onto `origin/master`; the history is then upstream plus at most one new commit |
| GitAccess.SquashWithoutUpstream | kodi_game_scripting/git_access.py:145-151 | without `origin/master` the `HEAD` ref is deleted and the history becomes empty or one root commit holding all changes |
| GitAccess.ResolveRef | kodi_game_scripting/git_access.py:155 | `HEAD` resolves iff it is born, to its commit; a tag name to its target; otherwise a known commit id to itself |
| GitAccess.TagOverwrites | kodi_game_scripting/git_access.py:153-155 | the call succeeds iff the revision resolves; the tag then points at it without a message, replacing a tag of the same name; other tags and the histories stay |
| GitAccess.TagHead | kodi_game_scripting/git_access.py:153-155 | without a message the tag goes on `HEAD`; an unborn `HEAD` fails |
| GitAccess.TagMessageIsRevision | tests/unit/test_gitaccess.py:342-347 | a message is passed as the revision: one naming no tag or commit fails, one naming a tag copies its target |
| GitAccess.PushRules | kodi_game_scripting/git_access.py:172-180 | a dirty tree raises `ValueError` before any push; otherwise `HEAD:branch` is pushed, by force iff the branch is not `master`, then `--tags` iff asked |
| GitAccess.PushExample | tests/unit/test_gitaccess.py:398-417 | `branch` is pushed by force without tags; `master` without force, then with tags |
| GitAccess.DiffAfterReset | kodi_game_scripting/git_access.py:157-163 | right after a hard reset the diff against `origin/master` is empty |
| GitAccess.DiffEmptyMeans | kodi_game_scripting/git_access.py:157-163 | an empty diff means an upstream exists and the branch changes nothing relative to it |
| GitAccess.Describe | kodi_game_scripting/git_access.py:165-170 | `''` on an unborn `HEAD`, otherwise what `git describe` prints |
| GitAccess.Hexsha | kodi_game_scripting/git_access.py:135-137 | the id of the last commit, and a failure iff `HEAD` is unborn |
| GitAccess.GitRepo.constructor | kodi_game_scripting/git_access.py:91-109 | the repo lives at `join(path, name)` and is opened as the opening rules say |
| GitAccess.GitRepo.FetchAndReset | kodi_game_scripting/git_access.py:111-133 | the repository state and the error are those of the fetch-and-reset function |
| GitAccess.GitRepo.GetHexsha | kodi_game_scripting/git_access.py:135-137 | the `HEAD` commit id of the current state |
| GitAccess.GitRepo.Commit | kodi_game_scripting/git_access.py:139-151 | the state becomes that of the commit function |
| GitAccess.GitRepo.Tag | kodi_game_scripting/git_access.py:153-155 | the tag is created on the revision `message` names (`HEAD` for `None`), or a `GitCommandError` leaves the state as it was |
| GitAccess.GitRepo.GetDiff | kodi_game_scripting/git_access.py:157-163 | the diff of the current state |
| GitAccess.GitRepo.GetDescribe | kodi_game_scripting/git_access.py:165-170 | the description of the current state |
| GitAccess.GitRepo.Push | kodi_game_scripting/git_access.py:172-180 | the state and the error are those of the push function |
| GameAddons.DigitRun | kodi_game_scripting/process_game_addons.py:366 | the leading run of digits is no longer than the string |
| GameAddons.DigitRunIsDigits | kodi_game_scripting/process_game_addons.py:366 | the run is all digits and is followed by a non-digit or the end |
| GameAddons.MatchRevisionNumeral | kodi_game_scripting/process_game_addons.py:366-367 | a captured revision is a numeral |
| GameAddons.PackageRevision | kodi_game_scripting/process_game_addons.py:366-367 | the package revision is `-1` or a numeral |
| GameAddons.DigitRunOf | kodi_game_scripting/process_game_addons.py:366 | the digit run of digits followed by a non-digit is exactly those digits |
| GameAddons.MatchGroup | kodi_game_scripting/process_game_addons.py:366 | a leading `digits.` group is consumed by the pattern |
| GameAddons.MatchLastGroup | kodi_game_scripting/process_game_addons.py:366-367 | the last group is captured up to the first non-digit |
| GameAddons.PackageRevisionOf | kodi_game_scripting/process_game_addons.py:366-367 | after three `digits.` groups the fourth group of digits is the revision, whatever follows it |
| GameAddons.PackageRevisionNone | kodi_game_scripting/process_game_addons.py:366-367 | a describe string not starting with a digit gives `-1` |
| GameAddons.GameVersionExample | tests/unit/test_kodigameaddon.py:208-213 | `1.2.3` and `1.2.3.4-2-g1234567` give the version `1.2.3.4` |
| GameAddons.GameVersionInitialExample | tests/unit/test_kodigameaddon.py:216-221 | `1.2.3` and `g1234567` give the version `1.2.3.-1` |
| GameAddons.NoDotInNumber | kodi_game_scripting/process_game_addons.py:373-375 | `str(n)` has no dot |
| GameAddons.BumpVersionOf | kodi_game_scripting/process_game_addons.py:371-375 | the bump keeps everything before the last dot and adds one to the last component |
| GameAddons.BumpVersionNoDot | kodi_game_scripting/process_game_addons.py:373 | a version without a dot cannot be unpacked into two parts and raises `ValueError` |
| GameAddons.MinusOneAndZero | kodi_game_scripting/process_game_addons.py:375 | `str(-1)` is `-1` and `str(0)` is `0` |
| GameAddons.BumpInitialVersion | tests/unit/test_kodigameaddon.py:224-228 | `x.-1` is bumped to `x.0` |
| GameAddons.TagNameRevision | kodi_game_scripting/process_game_addons.py:366-367 | the revision of `a.b.c.r` is read back from its tag name `a.b.c.r-Leia` |
| GameAddons.BumpRevision | kodi_game_scripting/process_game_addons.py:371-375 | bumping `av.rev` gives `av` and the next revision |
| GameAddons.BumpGameVersion | kodi_game_scripting/process_game_addons.py:361-375 | bumping a freshly loaded version always succeeds and gives the described revision plus one |
| GameAddons.ReleaseCycle | kodi_game_scripting/process_game_addons.py:361-393 | describe, bump and tag round trip: the tag of the bumped version reads back as the next revision |
| GameAddons.Branch | kodi_game_scripting/process_game_addons.py:260 | the branch is the push branch when one is given, and never empty |
| GameAddons.PushModes | kodi_game_scripting/process_game_addons.py:395-399 | an add-on pushes `master` with tags and without force, or another branch by force and without tags |
| GameAddons.InitialDefaults | kodi_game_scripting/process_game_addons.py:256-291 | the version starts at `0.0.0`, nothing is loaded, the `soname`, `jnisoname` and libretro branch defaults hold |
| GameAddons.LibraryFileOf | kodi_game_scripting/process_game_addons.py:282-283 | the library file is `install/<name>/<name>.<ext>` |
| GameAddons.LoadedInfoUntouched | kodi_game_scripting/process_game_addons.py:329-333 | a key no line sets keeps its old value, or stays absent |
| GameAddons.LoadedInfoLastWins | kodi_game_scripting/process_game_addons.py:329-333 | the value of a key is the first shell word of the last line setting it |
| GameAddons.LoadedInfoEmptyValue | kodi_game_scripting/process_game_addons.py:333 | an empty value raises `IndexError` and keeps the earlier entries |
| GameAddons.LoadedInfoStep | kodi_game_scripting/process_game_addons.py:329-333 | one more line extends the parse by that line |
| GameAddons.ErrorStays | kodi_game_scripting/process_game_addons.py:329-333 | once a line raised, later lines change nothing |
| GameAddons.ImageIn | kodi_game_scripting/process_game_addons.py:339 | a named file with a `.png`, `.jpg` or `.svg` extension is an image |
| GameAddons.ResourceFiles | kodi_game_scripting/process_game_addons.py:342-347 | the compared names are `<name>/resources` followed by `/icon.png`, `/fanart.jpg` and `/screenshot` |
| GameAddons.IconFanartImages | kodi_game_scripting/process_game_addons.py:339-345 | the icon and fanart names pass the image test, and they differ |
| GameAddons.ResourceOf | kodi_game_scripting/process_game_addons.py:349 | a screenshot is recorded as `resources/` and its base name |
| GameAddons.AssetStepIconFanart | kodi_game_scripting/process_game_addons.py:342-345 | one file sets the icon iff it is `<name>/resources/icon.png`, and the fanart iff it is `<name>/resources/fanart.jpg`; the recorded values are `resources/icon.png` and `resources/fanart.jpg` |
| GameAddons.AssetsIconFanart | kodi_game_scripting/process_game_addons.py:338-345 | the icon is set iff `<name>/resources/icon.png` is listed, and the fanart iff `<name>/resources/fanart.jpg` is; otherwise they keep their old values |
| GameAddons.AssetStepScreenshot | kodi_game_scripting/process_game_addons.py:346-349 | one file is appended as `resources/<base name>` iff it is an image other than the icon and fanart that starts with the screenshot prefix; the list is created if missing |
| GameAddons.AssetsScreenshots | kodi_game_scripting/process_game_addons.py:338-349 | the screenshots are the listed screenshot images, in listing order, after any already recorded; the key appears only with the first |
| GameAddons.AppendShots | kodi_game_scripting/process_game_addons.py:348-349 | appending to a `setdefault` list that collects `prev` collects `prev + add` |
| GameAddons.ScreenshotImage | kodi_game_scripting/process_game_addons.py:339-349 | `<dir>/screenshot<k>.jpg` is an image whose base name is `screenshot<k>.jpg` |
| GameAddons.ScreenshotName | kodi_game_scripting/process_game_addons.py:342-347 | `<dir>/screenshot<k>.jpg` is neither the icon nor the fanart and starts with the screenshot prefix |
| GameAddons.ScreenshotAt | kodi_game_scripting/process_game_addons.py:339-349 | `<dir>/screenshot<k>.jpg` is recorded as the screenshot `resources/screenshot<k>.jpg` |
| GameAddons.NotScreenshot | kodi_game_scripting/process_game_addons.py:342-347 | the icon, the fanart and names shorter than the screenshot prefix are not screenshots |
| GameAddons.NoScreenshots | kodi_game_scripting/process_game_addons.py:338-349 | a listing of icons, fanart and short names yields no screenshot |
| GameAddons.ScreenshotsSnoc | kodi_game_scripting/process_game_addons.py:338-349 | one more file adds its screenshot, if it is one, at the end |
| GameAddons.OneScreenshot | kodi_game_scripting/process_game_addons.py:346-349 | a screenshot file after a listing appends `resources/screenshot<k>.jpg` to its screenshots |
| GameAddons.HeadHasNoScreenshots | tests/unit/test_kodigameaddon.py:171-174 | two short names, the icon and the fanart yield no screenshot |
| GameAddons.ScreenshotsListing | tests/unit/test_kodigameaddon.py:171-177 | in the test's listing the screenshots are the last two files, in order |
| GameAddons.ExampleScreenshots | tests/unit/test_kodigameaddon.py:171-177 | the test's listing under `<name>/resources` yields `resources/screenshot1.jpg` and `resources/screenshot2.jpg` |
| GameAddons.AssetsExample | tests/unit/test_kodigameaddon.py:168-186 | the test's listing records the icon, the fanart and both screenshots, in order |
| GameAddons.KodiGameAddon.constructor | kodi_game_scripting/process_game_addons.py:246-291 | the add-on's names, path and repository, and the initial info record |
| GameAddons.KodiGameAddon.LoadInfoFile | kodi_game_scripting/process_game_addons.py:322-333 | a missing file leaves the info alone; otherwise `libretro_info` and the error are those of parsing all lines |
| GameAddons.KodiGameAddon.LoadAssets | kodi_game_scripting/process_game_addons.py:335-351 | the assets become those the file-by-file comparison against `<name>/resources` gives over the sorted listing of the add-on directory; nothing else in `info` changes |
| GameAddons.KodiGameAddon.LoadGitRevision | kodi_game_scripting/process_game_addons.py:353-359 | the core's `HEAD` id is recorded if its checkout is a repo; an unborn `HEAD` raises and changes nothing |
| GameAddons.KodiGameAddon.LoadGameVersion | kodi_game_scripting/process_game_addons.py:361-369 | the version becomes the add-on version of the system version, a dot and the described revision |
| GameAddons.KodiGameAddon.BumpVersion | kodi_game_scripting/process_game_addons.py:371-376 | the version is bumped, or the error is raised and nothing changes |
| GameAddons.KodiGameAddon.FetchAndReset | kodi_game_scripting/process_game_addons.py:378-381 | the add-on's repo is fetched and reset as the git wrapper says |
| GameAddons.KodiGameAddon.Commit | kodi_game_scripting/process_game_addons.py:383-387 | everything is committed with the fixed message, and the diff is recorded, or its error raised |
| GameAddons.KodiGameAddon.Tag | kodi_game_scripting/process_game_addons.py:389-393 | `HEAD` of the repo is tagged `<version>-Leia` |
| GameAddons.KodiGameAddon.Push | kodi_game_scripting/process_game_addons.py:395-399 | the add-on's branch is pushed, with tags iff it is `master` |
| GameAddons.Selected | kodi_game_scripting/process_game_addons.py:90-91 | exactly the config entries whose key the filter finds |
| GameAddons.Keys | kodi_game_scripting/process_game_addons.py:114 | the config's keys, in order |
| GameAddons.KeysMembers | kodi_game_scripting/process_game_addons.py:114 | a key is listed iff some entry has it |
| GameAddons.AddonNames | kodi_game_scripting/process_game_addons.py:90-93 | `ValueError` iff the filter matches no key; otherwise exactly the matching keys, sorted, each once per selected entry |
| GameAddons.ChooseRepo | kodi_game_scripting/process_game_addons.py:116-122 | a listed repo is used; otherwise it is created iff git and a push branch are on; otherwise a local stand-in without URLs |
| GameAddons.PrepareAddons | kodi_game_scripting/process_game_addons.py:87-125 | fails iff the filter matches nothing; otherwise one planned add-on per matching key, in sorted order, each with its chosen repo |
| GameAddons.CommitAll | kodi_game_scripting/process_game_addons.py:174-176 | one commit per add-on in order, squashed iff `git_noclean` |
| GameAddons.GitSteps | kodi_game_scripting/process_game_addons.py:174-192 | the commits, then the updates of changed add-ons, then the pushes iff a push branch is set |
| GameAddons.CommitEach | kodi_game_scripting/process_game_addons.py:175-176 | the commit loop produces the commit steps |
| GameAddons.UpdateChanged | kodi_game_scripting/process_game_addons.py:180-186 | the update loop produces the update steps |
| GameAddons.PushEach | kodi_game_scripting/process_game_addons.py:190-192 | the push loop produces the push steps |
| GameAddons.CommitAllAppend | kodi_game_scripting/process_game_addons.py:175-176 | one more add-on adds one more commit at the end |
| GameAddons.UpdatesIff | kodi_game_scripting/process_game_addons.py:180-186 | an add-on is bumped and tagged iff it is processed and its diff is non-empty; updates never push |
| GameAddons.UpdatesSquash | kodi_game_scripting/process_game_addons.py:185 | every update commit is squashed |
| GameAddons.PushAllReversed | kodi_game_scripting/process_game_addons.py:190-192 | the add-ons are pushed in reverse order |
| GameAddons.PushAllDescending | kodi_game_scripting/process_game_addons.py:188-192 | for sorted add-ons the pushes go in descending name order |
| LegacyAddons.KeptNames | process_game_addons.py:215 | exactly the file names not starting with `.` are kept |
| LegacyAddons.KeptDirs | process_game_addons.py:214 | exactly the directories not starting with `.` are kept |
| LegacyAddons.KeptDirsCons | process_game_addons.py:214 | the directory filter goes one directory at a time |
| LegacyAddons.VisibleDirsMembers | process_game_addons.py:214 | the visible tree's subdirectories are the non-hidden ones, themselves pruned |
| LegacyAddons.FileAtVisible | process_game_addons.py:214-215 | a file is in the pruned tree iff it is in the tree and no component of its path is hidden |
| LegacyAddons.NoHiddenCons | process_game_addons.py:214-215 | a path has no hidden component iff its head and its tail have none |
| LegacyAddons.SeenIsThere | process_game_addons.py:214 | a file in a pruned subdirectory is in the tree under a visible path |
| LegacyAddons.ThereIsSeen | process_game_addons.py:214 | a file under a visible path survives the pruning |
| LegacyAddons.ListedIffVisible | process_game_addons.py:209-220 | a string is listed iff it is the joined path of a tree file with no hidden component |
| LegacyAddons.NothingHiddenListed | process_game_addons.py:214-215 | nothing beneath a hidden directory and no hidden file is listed |
| LegacyAddons.VisibleWork | process_game_addons.py:212 | pruning pending work keeps its length |
| LegacyAddons.VisibleWorkAppend | process_game_addons.py:212 | pruning pending work distributes over concatenation |
| LegacyAddons.ChildrenOfCons | process_game_addons.py:212 | pushing subdirectories goes one at a time |
| LegacyAddons.VisibleWorkCons | process_game_addons.py:212 | pruning pending work goes one directory at a time |
| LegacyAddons.ChildrenOfKept | process_game_addons.py:212-214 | walking the kept subdirectories is walking the pruned tree's subdirectories |
| LegacyAddons.ChildrenIsChildrenOf | process_game_addons.py:212 | the walk pushes each subdirectory with its relative path |
| LegacyAddons.PrunedVisitStep | process_game_addons.py:212-219 | one pruned directory's kept files, followed by the rest of the pruned walk, are the remaining pruned walk |
| LegacyAddons.ListAllFiles | process_game_addons.py:209-220 | the loop returns exactly the files of the hidden-pruned tree, relative to the root |
| LegacyAddons.AddonName | process_game_addons.py:94 | the name after the last dot; an `IndexError` iff the directory name has no dot |
| LegacyAddons.AddonNameOf | process_game_addons.py:94 | `stem.core` gives `core` |
| LegacyAddons.AddonVars | process_game_addons.py:91-109 | the variables exist iff the name can be derived |
| LegacyAddons.AddonVarsLookup | process_game_addons.py:95-109 | with a config entry, `repo` and the makefile's `file` and `dir` come from its first three fields; without one there is no `repo` and the makefile is empty |
| LegacyAddons.SelectedMembers | process_game_addons.py:85-89 | exactly the subdirectories containing the filter are processed |
| LegacyAddons.ContainsEmpty | process_game_addons.py:86 | every name contains the empty filter |
| LegacyAddons.SelectedEmptyFilter | process_game_addons.py:85-89 | an empty filter processes every subdirectory |
| LegacyAddons.ProcessedSelected | process_game_addons.py:80-109 | the directory run fails iff a selected name has no dot; otherwise one set of variables per selected directory, in order |
| LegacyAddons.ProcessDirectory | process_game_addons.py:80-89 | the loop gives the result of the directory run |
| LegacyAddons.PrefixErrorStays | process_game_addons.py:85-87 | once an add-on raised, the rest of the run changes nothing |
| LegacyAddons.SplitJ2 | process_game_addons.py:157 | a name ending in `.j2` and a dot-free tail splits into the stem and the extension |
| LegacyAddons.TemplateExtensions | process_game_addons.py:153-168 | a file whose extension starts with `.j2` is generated to its name without the extension |
| LegacyAddons.PackageTemplateExtensions | kodi_game_scripting/template_processor.py:92 | the newer script treats such a file as a template iff its extension is exactly `.j2` |
| LegacyAddons.ProcessTemplates | process_game_addons.py:142-174 | one output per visible template file, in listing order, generated or copied by the naming rule |
| LegacyAddons.EachOutput | process_game_addons.py:150-174 | the loop produces one output per file, in order |

## Left out

- All I/O is left out: files, directories, the network, processes, printing and the clock.
  Files and directories are maps and `Utils.Tree` values. The time stamp is the `now`
  parameter.
- GitPython and PyGithub are left out. The repository is an abstract state: one linear
  history, sets of staged, unstaged, untracked and ignored paths, tags, fetches and pushes.
  Commit ids, `git describe` and the remote are parameters. A rebase conflict is the
  `conflict` flag. Deletions, merges and real diffs are not modelled.
- The caching decorator on `get_repos` is an explicit `cache` map on `GitHubOrg`.
- `GitHubOrg.__init__`'s failure points are a `FailPoint` parameter. The stored credentials
  are a parameter; `credentials.py` is not part of this model.
- Jinja2 rendering of names and templates, the `regex_replace` filter, `get_xml_data` and the
  `POT-Creation-Date` search are parameters of `TemplateProcessor.Env`.
- Regular-expression searches are the `search` parameter, except the revision pattern in
  `load_game_version`, which is modelled.
- `versions.AddonVersion.get` is not part of this model and is the `addonVersion` parameter.
- `load_library_file`, `libretro_ctypes` and the settings read from the library are left out.
  They need a compiled core loaded through ctypes. The library extension is the `ext`
  parameter.
- `_compile_addons`, `_compile_addon`, `summary`, `process_description_files`,
  `process_addon_files`, the description cleaning and the description push are left out.
  They are build steps and template runs over other directories. The orchestration model
  records `Render` where `process` re-renders an add-on.
- `GameAddons.GitSteps`: models only the git steps of `process` (commit, update, push) as an
  action log. It does not model the first and second template iterations it interleaves
  with.
- `ensure_directory_exists` is left out. Directories are implicit in the output maps.
- `config.py` and the root `config.py` are data tables. The config is a parameter.
- The root `git_access.py` (listing and cloning) is left out. It was superseded by the
  package version.
- In the root script, `main` and running `_process_templates` inside `process_addon` are
  left out. Both the directory filter and the naming rule are modelled.
- `TemplateProcessor.Process`: the template variables are reduced to string values. `xml`
  holds the result of an abstract reader, not a parsed document.
- `GitAccess.ResolveRef`: resolves only `HEAD`, tag names and full commit ids of the two
  modelled histories. Branch names, abbreviated ids and expressions such as `HEAD~1` are not
  modelled.
- The fetch pass of `_prepare_environment` is left out: the `libretro-super` checkout and
  the per-add-on `fetch_and_reset` loop. Each call is modelled by
  `KodiGameAddon.FetchAndReset`; the loop over all add-ons only repeats it.
- `GitAccess.FetchedAndReset`: an empty remote `master` is fetched like any other branch.
  Against a real remote without that branch, git fails.
- `Utils.Purify`: a Python set is modelled as an ordered sequence, and duplicates are kept.
- `GameAddons.AddonNames`: the config dict is a sequence of entries. A key that occurs in
  two entries, which a dict cannot hold, is listed once per entry.
- `Utils.Xstr`: models only `bytes` and `None` inputs. `str(x, 'utf-8')` on other types
  raises a `TypeError`, which is not modelled.
