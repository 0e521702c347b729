/** kodi_game_scripting/template_processor.py: the `escape_xml` and `get_list` template
    filters and the file rules of `TemplateProcessor.process`. */
module TemplateProcessor {
  import opened Wrappers
  import opened Text
  import Utils

  // ===========================================================================
  // escape_xml

  /** `s.replace(c, r)` for a one-character pattern: every occurrence of `c` becomes `r`. */
  function ReplaceChar(s: string, c: char, r: string): string {
    if s == [] then [] else (if s[0] == c then r else [s[0]]) + ReplaceChar(s[1..], c, r)
  }

  lemma {:induction false} ReplaceCharAppend(a: string, b: string, c: char, r: string)
    ensures ReplaceChar(a + b, c, r) == ReplaceChar(a, c, r) + ReplaceChar(b, c, r)
  {
    if a != [] {
      assert (a + b)[0] == a[0];
      assert (a + b)[1..] == a[1..] + b;
      ReplaceCharAppend(a[1..], b, c, r);
    } else {
      assert a + b == b;
    }
  }

  lemma {:induction false} ReplaceCharAbsent(s: string, c: char, r: string)
    requires c !in s
    ensures ReplaceChar(s, c, r) == s
  {
    if s != [] {
      ReplaceCharAbsent(s[1..], c, r);
      assert s == [s[0]] + s[1..];
    }
  }

  /** The filter: `&` is replaced first, then `'`, `"`, `<` and `>`. */
  function EscapeXml(s: string): string {
    ReplaceChar(ReplaceChar(ReplaceChar(ReplaceChar(ReplaceChar(
      s, '&', "&amp;"), '\'', "&apos;"), '"', "&quot;"), '<', "&lt;"), '>', "&gt;")
  }

  /** The predefined entity of XML 1.0 (section 4.6) for each character that has one. */
  function EscapeChar(c: char): string {
    match c
    case '&' => "&amp;"
    case '\'' => "&apos;"
    case '"' => "&quot;"
    case '<' => "&lt;"
    case '>' => "&gt;"
    case _ => [c]
  }

  /** The per-character reference definition. */
  function EscapeEach(s: string): string {
    if s == [] then [] else EscapeChar(s[0]) + EscapeEach(s[1..])
  }

  predicate IsSpecial(c: char) {
    c == '&' || c == '\'' || c == '"' || c == '<' || c == '>'
  }

  lemma EscapeXmlAppend(a: string, b: string)
    ensures EscapeXml(a + b) == EscapeXml(a) + EscapeXml(b)
  {
    var a1, b1 := ReplaceChar(a, '&', "&amp;"), ReplaceChar(b, '&', "&amp;");
    ReplaceCharAppend(a, b, '&', "&amp;");
    var a2, b2 := ReplaceChar(a1, '\'', "&apos;"), ReplaceChar(b1, '\'', "&apos;");
    ReplaceCharAppend(a1, b1, '\'', "&apos;");
    var a3, b3 := ReplaceChar(a2, '"', "&quot;"), ReplaceChar(b2, '"', "&quot;");
    ReplaceCharAppend(a2, b2, '"', "&quot;");
    var a4, b4 := ReplaceChar(a3, '<', "&lt;"), ReplaceChar(b3, '<', "&lt;");
    ReplaceCharAppend(a3, b3, '<', "&lt;");
    ReplaceCharAppend(a4, b4, '>', "&gt;");
  }

  lemma ReplaceCharSingle(c: char, x: char, r: string)
    ensures ReplaceChar([c], x, r) == if c == x then r else [c]
  {
    assert [c][1..] == [];
  }

  /** Replacing a character that does not occur in an entity leaves the entity alone. */
  lemma EntityStable(e: string, x: char, r: string)
    requires e in ["&amp;", "&apos;", "&quot;", "&lt;", "&gt;"] && x != '&' && x != ';' && !('a' <= x <= 'z')
    ensures ReplaceChar(e, x, r) == e
  {
    ReplaceCharAbsent(e, x, r);
  }

  /** On one character the chain of replaces produces that character's entity: since `&`
      goes first, the `&` introduced by a later entity is never escaped again. */
  lemma EscapeXmlChar(c: char)
    ensures EscapeXml([c]) == EscapeChar(c)
  {
    var s1 := ReplaceChar([c], '&', "&amp;");
    ReplaceCharSingle(c, '&', "&amp;");
    var s2 := ReplaceChar(s1, '\'', "&apos;");
    if c == '&' { EntityStable(s1, '\'', "&apos;"); } else { ReplaceCharSingle(c, '\'', "&apos;"); }
    var s3 := ReplaceChar(s2, '"', "&quot;");
    if c == '&' || c == '\'' { EntityStable(s2, '"', "&quot;"); } else { ReplaceCharSingle(c, '"', "&quot;"); }
    var s4 := ReplaceChar(s3, '<', "&lt;");
    if c == '&' || c == '\'' || c == '"' { EntityStable(s3, '<', "&lt;"); } else { ReplaceCharSingle(c, '<', "&lt;"); }
    if c == '&' || c == '\'' || c == '"' || c == '<' { EntityStable(s4, '>', "&gt;"); } else { ReplaceCharSingle(c, '>', "&gt;"); }
  }

  /** `escape_xml` is the per-character entity mapping. */
  lemma {:induction false} EscapeXmlIsPerChar(s: string)
    ensures EscapeXml(s) == EscapeEach(s)
  {
    if s != [] {
      assert s == [s[0]] + s[1..];
      EscapeXmlAppend([s[0]], s[1..]);
      EscapeXmlChar(s[0]);
      EscapeXmlIsPerChar(s[1..]);
    } else {
      assert EscapeXml(s) == [];
    }
  }

  lemma {:induction false} EscapeEachNoMarkup(s: string)
    ensures forall i :: 0 <= i < |EscapeEach(s)| ==> EscapeEach(s)[i] !in "<>\"'"
  {
    if s != [] {
      EscapeEachNoMarkup(s[1..]);
      var e := EscapeChar(s[0]);
      assert forall i :: 0 <= i < |e| ==> e[i] !in "<>\"'";
      assert EscapeEach(s) == e + EscapeEach(s[1..]);
    }
  }

  /** The escaped text contains none of `<`, `>`, `"` and `'`. */
  lemma EscapeXmlNoMarkup(s: string)
    ensures forall i :: 0 <= i < |EscapeXml(s)| ==> EscapeXml(s)[i] !in "<>\"'"
  {
    EscapeXmlIsPerChar(s);
    EscapeEachNoMarkup(s);
  }

  /** Text without any of the five special characters is left as it is. */
  lemma EscapeXmlPlain(s: string)
    requires forall i :: 0 <= i < |s| ==> !IsSpecial(s[i])
    ensures EscapeXml(s) == s
  {
    ReplaceCharAbsent(s, '&', "&amp;");
    ReplaceCharAbsent(s, '\'', "&apos;");
    ReplaceCharAbsent(s, '"', "&quot;");
    ReplaceCharAbsent(s, '<', "&lt;");
    ReplaceCharAbsent(s, '>', "&gt;");
  }

  /** An XML reader's replacement of the five predefined entity references. */
  function UnescapeXml(s: string): string
    decreases |s|
  {
    if s == [] then []
    else if StartsWith(s, "&amp;") then "&" + UnescapeXml(s[5..])
    else if StartsWith(s, "&apos;") then "'" + UnescapeXml(s[6..])
    else if StartsWith(s, "&quot;") then "\"" + UnescapeXml(s[6..])
    else if StartsWith(s, "&lt;") then "<" + UnescapeXml(s[4..])
    else if StartsWith(s, "&gt;") then ">" + UnescapeXml(s[4..])
    else [s[0]] + UnescapeXml(s[1..])
  }

  /** A string that differs from `p` at some position does not start with `p`. */
  lemma Differs(s: string, p: string, k: nat)
    requires k < |p| && k < |s| && s[k] != p[k]
    ensures !StartsWith(s, p)
  {
    assert |p| <= |s| ==> s[..|p|][k] == s[k];
  }

  lemma UnescapeAmp(rest: string)
    ensures UnescapeXml("&amp;" + rest) == "&" + UnescapeXml(rest)
  {
    var s := "&amp;" + rest;
    assert s[..5] == "&amp;" && s[5..] == rest;
  }

  lemma UnescapeApos(rest: string)
    ensures UnescapeXml("&apos;" + rest) == "'" + UnescapeXml(rest)
  {
    var s := "&apos;" + rest;
    assert s[..6] == "&apos;" && s[6..] == rest;
    Differs(s, "&amp;", 2);
  }

  lemma UnescapeQuot(rest: string)
    ensures UnescapeXml("&quot;" + rest) == "\"" + UnescapeXml(rest)
  {
    var s := "&quot;" + rest;
    assert s[..6] == "&quot;" && s[6..] == rest;
    Differs(s, "&amp;", 1);
    Differs(s, "&apos;", 1);
  }

  lemma UnescapeLt(rest: string)
    ensures UnescapeXml("&lt;" + rest) == "<" + UnescapeXml(rest)
  {
    var s := "&lt;" + rest;
    assert s[..4] == "&lt;" && s[4..] == rest;
    Differs(s, "&amp;", 1);
    Differs(s, "&apos;", 1);
    Differs(s, "&quot;", 1);
  }

  lemma UnescapeGt(rest: string)
    ensures UnescapeXml("&gt;" + rest) == ">" + UnescapeXml(rest)
  {
    var s := "&gt;" + rest;
    assert s[..4] == "&gt;" && s[4..] == rest;
    Differs(s, "&amp;", 1);
    Differs(s, "&apos;", 1);
    Differs(s, "&quot;", 1);
    Differs(s, "&lt;", 1);
  }

  lemma UnescapeEscapeChar(c: char, rest: string)
    ensures UnescapeXml(EscapeChar(c) + rest) == [c] + UnescapeXml(rest)
  {
    match c
    case '&' => UnescapeAmp(rest);
    case '\'' => UnescapeApos(rest);
    case '"' => UnescapeQuot(rest);
    case '<' => UnescapeLt(rest);
    case '>' => UnescapeGt(rest);
    case _ =>
      var s := [c] + rest;
      assert EscapeChar(c) == [c];
      assert s[0] == c && s[1..] == rest;
      Differs(s, "&amp;", 0);
      Differs(s, "&apos;", 0);
      Differs(s, "&quot;", 0);
      Differs(s, "&lt;", 0);
      Differs(s, "&gt;", 0);
  }

  /** Reading the escaped text back as XML character data gives the original string. */
  lemma {:induction false} UnescapeEscape(s: string)
    ensures UnescapeXml(EscapeXml(s)) == s
  {
    EscapeXmlIsPerChar(s);
    UnescapeEscapeEach(s);
  }

  lemma {:induction false} UnescapeEscapeEach(s: string)
    ensures UnescapeXml(EscapeEach(s)) == s
  {
    if s != [] {
      UnescapeEscapeChar(s[0], EscapeEach(s[1..]));
      UnescapeEscapeEach(s[1..]);
      assert s == [s[0]] + s[1..];
    }
  }

  // ===========================================================================
  // get_list

  /** The filter: a list is returned as it is; any other value, a tuple included, becomes
      a one-element list. */
  function GetList(v: Utils.Value): (r: Utils.Value)
    ensures r.Sequence? && r.kind == Utils.ListKind
    ensures r == v || r.items == [v]
    ensures r == v <==> v.Sequence? && v.kind == Utils.ListKind
  {
    if v.Sequence? && v.kind == Utils.ListKind then v else Utils.Sequence(Utils.ListKind, [v])
  }

  lemma GetListIdempotent(v: Utils.Value)
    ensures GetList(GetList(v)) == GetList(v)
  {
  }

  // ===========================================================================
  // os.path.splitext

  /** `os.path.splitext(p)` on POSIX: the extension starts at the last dot of the final
      path component, unless every character before that dot in the component is a dot
      itself (so `.bashrc` and `..j2` have no extension). */
  function SplitExt(p: string): (r: (string, string))
    ensures r.0 + r.1 == p
    ensures r.1 == [] || (r.1[0] == '.' && '.' !in r.1[1..] && '/' !in r.1)
  {
    var sep := match LastIndexOf(p, '/') case Some(k) => k as int case None => -1;
    match LastIndexOf(p, '.')
    case None => (p, "")
    case Some(dot) =>
      if dot > sep && exists k :: sep < k < dot && p[k] != '.' then
        assert p == p[..dot] + p[dot..];
        assert '/' !in p[dot..] by {
          if sep >= 0 {
            assert forall i :: dot <= i < |p| ==> p[dot..][i - dot] == p[i];
          }
        }
        (p[..dot], p[dot..])
      else (p, "")
  }

  /** The final path component. */
  function BaseName(p: string): string {
    match LastIndexOf(p, '/') case Some(k) => p[k + 1..] case None => p
  }

  lemma BaseNameHasNoSlash(p: string)
    ensures '/' !in BaseName(p)
  {
  }

  /** The final component of `d/f` is `f`. */
  lemma BaseNameOf(d: string, f: string)
    requires '/' !in f
    ensures BaseName(d + "/" + f) == f
  {
    var p := d + "/" + f;
    LastIndexOfExtend(d + "/", f, '/');
    assert LastIndexOf(d + "/", '/') == Some(|d|);
    assert p[|d| + 1..] == f;
  }

  /** A stem followed by a dot and a word without dots or slashes splits into the two,
      provided the stem's final component holds a character other than a dot. */
  lemma SplitExtOf(stem: string, ext: string)
    requires exists k :: 0 <= k < |BaseName(stem)| && BaseName(stem)[k] != '.'
    requires |ext| > 0 && ext[0] == '.' && '.' !in ext[1..] && '/' !in ext
    ensures SplitExt(stem + ext) == (stem, ext)
  {
    var p := stem + ext;
    ExtensionDot(stem, ext);
    LastIndexOfExtend(stem, ext, '/');
    var sep := match LastIndexOf(p, '/') case Some(k) => k as int case None => -1;
    StemHasName(stem, sep);
    assert p[..|stem|] == stem && p[|stem|..] == ext;
  }

  /** The last dot of `stem + ext` is the one that starts `ext`. */
  lemma ExtensionDot(stem: string, ext: string)
    requires |ext| > 0 && ext[0] == '.' && '.' !in ext[1..]
    ensures LastIndexOf(stem + ext, '.') == Some(|stem|)
  {
    assert ext == ['.'] + ext[1..];
    assert stem + ext == stem + ['.'] + ext[1..];
    LastIndexOfExtend(stem + ['.'], ext[1..], '.');
    assert LastIndexOf(stem + ['.'], '.') == Some(|stem|);
  }

  /** A final component holding something other than a dot has such a character after
      the last slash. */
  lemma StemHasName(stem: string, sep: int)
    requires exists k :: 0 <= k < |BaseName(stem)| && BaseName(stem)[k] != '.'
    requires sep == match LastIndexOf(stem, '/') case Some(k) => k as int case None => -1
    ensures exists k :: sep < k < |stem| && stem[k] != '.'
  {
    var k :| 0 <= k < |BaseName(stem)| && BaseName(stem)[k] != '.';
    assert stem[sep + 1..] == BaseName(stem);
    assert stem[sep + 1 + k] != '.';
  }

  lemma {:induction false} LastIndexOfExtend(a: string, b: string, c: char)
    requires c !in b
    ensures LastIndexOf(a + b, c) == LastIndexOf(a, c)
    decreases |b|
  {
    if b == [] {
      assert a + b == a;
    } else {
      var ab := a + b;
      assert ab[..|ab| - 1] == a + b[..|b| - 1];
      assert ab[|ab| - 1] == b[|b| - 1];
      LastIndexOfExtend(a, b[..|b| - 1], c);
    }
  }

  /** `addon.xml.j2` is a template for `addon.xml`. */
  lemma SplitExtTemplateExample()
    ensures SplitExt("addon.xml.j2") == ("addon.xml", ".j2")
  {
    assert '/' !in "addon.xml";
    assert BaseName("addon.xml") == "addon.xml";
    assert BaseName("addon.xml")[0] != '.';
    SplitExtOf("addon.xml", ".j2");
    assert "addon.xml" + ".j2" == "addon.xml.j2";
  }

  /** A file named just `.j2` has no extension and is therefore copied, not rendered. */
  lemma SplitExtDotFileExample()
    ensures SplitExt(".j2") == (".j2", "")
  {
    assert '/' !in ".j2";
    assert LastIndexOf(".j2", '.') == Some(0);
  }

  // ===========================================================================
  // TemplateProcessor.process

  /** Template variables, reduced to the string values the loop itself assigns. */
  type Vars = map<string, string>

  /** The parts of `process` outside this model: Jinja2 rendering of a file name and of a
      template, the source files to copy, and the two readers of existing output files
      (`get_xml_data` and the `POT-Creation-Date` search, which finds nothing or a stamp). */
  datatype Env = Env(
    templateDir: string,
    destination: string,
    renderName: (string, Vars) -> string,
    render: (string, Vars) -> string,
    source: string -> string,
    xmlData: string -> string,
    potDate: string -> Option<string>)

  /** The destination file system (path to content) and the template variables. */
  datatype State = State(files: map<string, string>, vars: Vars)

  /** What the loop has done when it stops: the state, and whether it stopped because the
      creation date of an existing `.po` output could not be found (`.group(1)` is then
      called on `None` and raises `AttributeError`). */
  datatype Outcome = Outcome(state: State, failed: bool)

  /** The output name: the file name is rendered only when it contains both `{{` and `}}`. */
  function OutFile(env: Env, infile: string, vars: Vars): string {
    if Contains(infile, "{{") && Contains(infile, "}}") then env.renderName(infile, vars) else infile
  }

  predicate IsTemplate(outfile: string) { SplitExt(outfile).1 == ".j2" }

  /** The path an input file is written to or removed from. */
  function Target(env: Env, infile: string, vars: Vars): string {
    var outfile := OutFile(env, infile, vars);
    if IsTemplate(outfile) then JoinPath(env.destination, SplitExt(outfile).0)
    else JoinPath(env.destination, outfile)
  }

  /** The variables a template is rendered with: `xml` is taken from an existing output if
      the input name contains `.xml`, and `datetime` from an existing output if it contains
      `.po`; `None` when the creation date cannot be found. */
  function TemplateVars(env: Env, files: map<string, string>, infile: string, path: string, vars: Vars): Option<Vars> {
    var v1 := if Contains(infile, ".xml") && path in files then vars["xml" := env.xmlData(files[path])] else vars;
    if Contains(infile, ".po") && path in files then
      match env.potDate(files[path])
      case None => None
      case Some(stamp) => Some(v1["datetime" := stamp])
    else Some(v1)
  }

  /** One iteration of the loop. */
  function Step(env: Env, st: State, infile: string): Outcome {
    var outfile := OutFile(env, infile, st.vars);
    var path := Target(env, infile, st.vars);
    if IsTemplate(outfile) then
      match TemplateVars(env, st.files, infile, path, st.vars)
      case None => Outcome(st, true)
      case Some(vars) =>
        var content := env.render(infile, vars);
        if content != "" then Outcome(State(st.files[path := content], vars), false)
        else Outcome(State(st.files - {path}, vars), false)
    else
      Outcome(State(st.files[path := env.source(JoinPath(env.templateDir, infile))], st.vars), false)
  }

  /** The whole loop over the input files, stopping at the first failure. */
  function Run(env: Env, infiles: seq<string>, st: State): Outcome
    decreases |infiles|
  {
    if infiles == [] then Outcome(st, false)
    else
      var o := Step(env, st, infiles[0]);
      if o.failed then o else Run(env, infiles[1..], o.state)
  }

  /** A `.j2` template goes to its name with the extension stripped, under the destination;
      it is written when it renders to something and removed (if present) when it renders
      to nothing. No other destination file changes. */
  lemma StepTemplate(env: Env, st: State, infile: string)
    requires IsTemplate(OutFile(env, infile, st.vars))
    requires !Step(env, st, infile).failed
    ensures var stem := SplitExt(OutFile(env, infile, st.vars)).0;
            stem + ".j2" == OutFile(env, infile, st.vars) &&
            Target(env, infile, st.vars) == JoinPath(env.destination, stem)
    ensures var o := Step(env, st, infile);
            var path := Target(env, infile, st.vars);
            var content := env.render(infile, o.state.vars);
            (content != "" ==> path in o.state.files && o.state.files[path] == content) &&
            (content == "" ==> path !in o.state.files)
    ensures var o := Step(env, st, infile);
            forall p :: p != Target(env, infile, st.vars) ==>
              (p in o.state.files <==> p in st.files) && (p in st.files ==> o.state.files[p] == st.files[p])
  {
  }

  /** Any other file is copied from the template directory to the same relative name under
      the destination, and the variables are untouched. */
  lemma StepCopy(env: Env, st: State, infile: string)
    requires !IsTemplate(OutFile(env, infile, st.vars))
    ensures var o := Step(env, st, infile);
            var path := JoinPath(env.destination, OutFile(env, infile, st.vars));
            !o.failed && o.state.vars == st.vars &&
            path in o.state.files && o.state.files[path] == env.source(JoinPath(env.templateDir, infile)) &&
            forall p :: p != path ==> (p in o.state.files <==> p in st.files) &&
                                      (p in st.files ==> o.state.files[p] == st.files[p])
  {
  }

  /** The loop stops only on a `.po` template whose existing output lacks a creation date. */
  lemma StepFails(env: Env, st: State, infile: string)
    ensures Step(env, st, infile).failed <==>
      var path := Target(env, infile, st.vars);
      IsTemplate(OutFile(env, infile, st.vars)) && Contains(infile, ".po") && path in st.files
      && env.potDate(st.files[path]).None?
  {
  }

  /** The variables gain at most the keys `xml` and `datetime`. */
  lemma StepVars(env: Env, st: State, infile: string)
    ensures var o := Step(env, st, infile);
            forall k :: k != "xml" && k != "datetime" ==>
              (k in o.state.vars <==> k in st.vars) && (k in st.vars ==> o.state.vars[k] == st.vars[k])
  {
    var o := Step(env, st, infile);
    var tv := TemplateVars(env, st.files, infile, Target(env, infile, st.vars), st.vars);
    assert o.state.vars == st.vars || (tv.Some? && o.state.vars == tv.value);
    TemplateVarsKeys(env, st.files, infile, Target(env, infile, st.vars), st.vars);
  }

  lemma TemplateVarsKeys(env: Env, files: map<string, string>, infile: string, path: string, vars: Vars)
    ensures var r := TemplateVars(env, files, infile, path, vars);
            r.Some? ==> forall k :: k != "xml" && k != "datetime" ==>
              (k in r.value <==> k in vars) && (k in vars ==> r.value[k] == vars[k])
  {
  }

  /** The input files' targets in the order the loop reaches them (up to the failing one). */
  function Targets(env: Env, infiles: seq<string>, st: State): seq<string>
    decreases |infiles|
  {
    if infiles == [] then []
    else
      var o := Step(env, st, infiles[0]);
      [Target(env, infiles[0], st.vars)] + (if o.failed then [] else Targets(env, infiles[1..], o.state))
  }

  /** A destination file that no input file targets is left exactly as it was. */
  lemma {:induction false} RunFrame(env: Env, infiles: seq<string>, st: State, p: string)
    requires p !in Targets(env, infiles, st)
    ensures var o := Run(env, infiles, st);
            (p in o.state.files <==> p in st.files) && (p in st.files ==> o.state.files[p] == st.files[p])
    decreases |infiles|
  {
    if infiles != [] {
      var infile := infiles[0];
      var o := Step(env, st, infile);
      if IsTemplate(OutFile(env, infile, st.vars)) {
        if !o.failed {
          StepTemplate(env, st, infile);
        }
      } else {
        StepCopy(env, st, infile);
      }
      if !o.failed {
        RunFrame(env, infiles[1..], o.state, p);
      }
    }
  }

  /** One pass of the loop body of `TemplateProcessor.process`: name the output, pick the
      variables, then render and write or remove a template, or copy any other file. */
  method ProcessFile(env: Env, st: State, infile: string) returns (o: Outcome)
    ensures o == Step(env, st, infile)
  {
    var outfile := if Contains(infile, "{{") && Contains(infile, "}}") then env.renderName(infile, st.vars) else infile;
    var (outfileName, extension) := SplitExt(outfile);
    if extension == ".j2" {
      var outfilePath := JoinPath(env.destination, outfileName);
      var tv := st.vars;
      if Contains(infile, ".xml") && outfilePath in st.files {
        tv := tv["xml" := env.xmlData(st.files[outfilePath])];
      }
      if Contains(infile, ".po") && outfilePath in st.files {
        var stamp := env.potDate(st.files[outfilePath]);
        if stamp.None? {
          return Outcome(st, true);
        }
        tv := tv["datetime" := stamp.value];
      }
      var content := env.render(infile, tv);
      assert TemplateVars(env, st.files, infile, outfilePath, st.vars) == Some(tv);
      if content != "" {
        o := Outcome(State(st.files[outfilePath := content], tv), false);
      } else if outfilePath in st.files {
        o := Outcome(State(st.files - {outfilePath}, tv), false);
      } else {
        assert st.files - {outfilePath} == st.files;
        o := Outcome(State(st.files, tv), false);
      }
    } else {
      o := Outcome(State(st.files[JoinPath(env.destination, outfile) := env.source(JoinPath(env.templateDir, infile))], st.vars), false);
    }
  }

  /** `TemplateProcessor.process`: the input files are those listed below the template
      directory; each is rendered and written, removed, or copied. */
  method Process(env: Env, templates: Utils.Tree, files: map<string, string>, vars: Vars)
    returns (outcome: Outcome)
    ensures outcome == Run(env, Utils.JoinEach(Utils.FilesOf(templates)), State(files, vars))
  {
    var infiles := Utils.ListAllFiles(templates);
    var st := State(files, vars);
    var i := 0;
    while i < |infiles|
      invariant 0 <= i <= |infiles|
      invariant Run(env, infiles, State(files, vars)) == Run(env, infiles[i..], st)
    {
      assert infiles[i..][1..] == infiles[i + 1..];
      var o := ProcessFile(env, st, infiles[i]);
      if o.failed {
        return o;
      }
      st := o.state;
      i := i + 1;
    }
    return Outcome(st, false);
  }
}
