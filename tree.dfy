/** The page tree of nodes.py: a source directory tree, the configuration
    each directory inherits, the pages its files become, its index page and
    auto-index pages, and the pages it lists. The filesystem is an arena of
    directories indexed from the root (index 0), each naming its parent by
    index. */
module Tree {
  import opened Values
  import opened Paths
  import Configuration
  import FrontMatter
  import AutoIndex
  import Templates

  /** A directory entry: a file with its text (`None` when it cannot be
      read as text) or a sub-directory by its index in the arena. */
  datatype Entry =
    | FileEntry(name: string, text: Option<string>)
    | DirEntry(name: string, id: nat)

  /** A source directory: its parent, its path below the root, its entries
      in listing order, its parsed `.bg.yml` document if the file exists,
      and the files of its `.template` folder. */
  datatype Directory = Directory(
    parent: Option<nat>,
    path: Path,
    entries: seq<Entry>,
    bgYml: Option<Value>,
    templates: map<string, Templates.TemplateFile>)

  /** A site: the directory arena, the YAML reading of a front-matter text,
      and the rendering of an auto-index `target` file-name template for a
      page number and page count. */
  datatype Site = Site(
    dirs: seq<Directory>,
    yaml: string -> Mapping,
    fileName: (Value, nat, nat) -> string)

  /** The root is directory 0; every other directory has a parent with a
      smaller index. */
  predicate Arena(site: Site) {
    && |site.dirs| > 0
    && site.dirs[0].parent.None? && site.dirs[0].path == []
    && forall d :: 0 < d < |site.dirs| ==> site.dirs[d].parent.Some? && site.dirs[d].parent.value < d
  }

  /** Every `.bg.yml` is absent, empty or a mapping. */
  predicate DocsOk(site: Site) {
    forall d :: 0 <= d < |site.dirs| ==> Configuration.FromPath(site.dirs[d].bgYml, None).Ok?
  }

  /** An entry of directory `d` is a valid name and a sub-directory points
      back at `d` and sits at `d`'s path plus its name. A sub-directory
      named `index.*` is not allowed: `_user_index_page` would open it as a
      file and fail. */
  predicate EntryLinked(site: Site, d: nat, e: Entry)
    requires d < |site.dirs|
  {
    && ValidName(e.name)
    && (e.DirEntry? ==>
          && e.id < |site.dirs|
          && site.dirs[e.id].parent == Some(d)
          && site.dirs[e.id].path == site.dirs[d].path + [e.name]
          && !StartsWith(e.name, "index."))
  }

  predicate Linked(site: Site) {
    forall d, i :: 0 <= d < |site.dirs| && 0 <= i < |site.dirs[d].entries| ==>
      EntryLinked(site, d, site.dirs[d].entries[i])
  }

  /** `Config.from_path` down the directory chain. */
  function DirConfigR(site: Site, d: nat): Result<Configuration.Config, Configuration.ConfigError>
    requires Arena(site) && d < |site.dirs|
    decreases d
  {
    var dir := site.dirs[d];
    if dir.parent.None? then Configuration.FromPath(dir.bgYml, None)
    else
      match DirConfigR(site, dir.parent.value)
      case Err(e) => Err(e)
      case Ok(pc) => Configuration.FromPath(dir.bgYml, Some(pc))
  }

  /** When every `.bg.yml` is empty or a mapping, every directory has a
      configuration. */
  lemma {:induction false} DirConfigOk(site: Site, d: nat)
    requires Arena(site) && DocsOk(site) && d < |site.dirs|
    ensures DirConfigR(site, d).Ok?
    decreases d
  {
    if site.dirs[d].parent.Some? {
      DirConfigOk(site, site.dirs[d].parent.value);
    }
  }

  /** `Directory.config`. */
  function DirConf(site: Site, d: nat): Configuration.Config
    requires Arena(site) && DocsOk(site) && d < |site.dirs|
  {
    DirConfigOk(site, d);
    DirConfigR(site, d).value
  }

  /** A directory without `.bg.yml` sees exactly its parent's configuration,
      and the root without one sees the empty configuration. */
  lemma NoBgYmlInherits(site: Site, d: nat)
    requires Arena(site) && DocsOk(site) && d < |site.dirs| && site.dirs[d].bgYml.None?
    ensures site.dirs[d].parent.None? ==> DirConf(site, d).view == map[]
    ensures site.dirs[d].parent.Some? ==> DirConf(site, d) == DirConf(site, site.dirs[d].parent.value)
  {
    DirConfigOk(site, d);
    if site.dirs[d].parent.Some? {
      DirConfigOk(site, site.dirs[d].parent.value);
    }
  }

  /** A directory's own non-mapping setting overrides whatever its parent
      has under that key. */
  lemma OwnSettingWins(site: Site, d: nat, key: string)
    requires Arena(site) && DocsOk(site) && d < |site.dirs|
    requires site.dirs[d].bgYml.Some? && site.dirs[d].bgYml.value.Dict?
    requires key in site.dirs[d].bgYml.value.fields && !site.dirs[d].bgYml.value.fields[key].Dict?
    ensures Configuration.Get(DirConf(site, d), key) == site.dirs[d].bgYml.value.fields[key]
  {
    DirConfigOk(site, d);
    if site.dirs[d].parent.Some? {
      DirConfigOk(site, site.dirs[d].parent.value);
    }
  }

  // ---------------------------------------------------------------- glob

  /** `fnmatch` on one path component with `*` and `?`. */
  predicate GlobMatch(pat: string, s: string)
    decreases |pat| + |s|
  {
    if pat == [] then s == []
    else if pat[0] == '*' then GlobMatch(pat[1..], s) || (s != [] && GlobMatch(pat, s[1..]))
    else s != [] && (pat[0] == '?' || pat[0] == s[0]) && GlobMatch(pat[1..], s[1..])
  }

  /** `*` matches every name. */
  lemma {:induction false} StarMatchesAll(s: string)
    ensures GlobMatch("*", s)
  {
    if s != [] {
      StarMatchesAll(s[1..]);
    }
  }

  /** A pattern that starts with characters other than `*` and `?` matches
      exactly the names that start with those characters and whose rest
      the remaining pattern matches. */
  lemma {:induction false} LiteralPrefix(lit: string, pat: string, s: string)
    requires '*' !in lit && '?' !in lit
    ensures GlobMatch(lit + pat, s) <==> StartsWith(s, lit) && GlobMatch(pat, s[|lit|..])
  {
    if lit != [] {
      assert (lit + pat)[0] == lit[0] && (lit + pat)[1..] == lit[1..] + pat;
      assert '*' !in lit[1..] && '?' !in lit[1..];
      if s != [] {
        LiteralPrefix(lit[1..], pat, s[1..]);
        if |lit| <= |s| {
          assert s[1..][|lit| - 1..] == s[|lit|..];
          assert s[..|lit|] == [s[0]] + s[1..][..|lit| - 1];
          assert lit == [lit[0]] + lit[1..];
        }
      }
    } else {
      assert lit + pat == pat;
    }
  }

  /** `index.*` matches exactly the names that start with `index.`. */
  lemma IndexGlob(s: string)
    ensures GlobMatch("index.*", s) <==> StartsWith(s, "index.")
  {
    assert "index.*" == "index." + "*";
    LiteralPrefix("index.", "*", s);
    if |s| >= 6 {
      StarMatchesAll(s[6..]);
    }
  }

  // ---------------------------------------------------------------- pages

  /** A page. File pages carry their directory and file name; renderable
      ones the front matter and body text `read_renderable_file` splits
      off. An auto-index page carries its directory, its slice of children,
      its page number and count, and its `target` and `layout` settings. */
  datatype Page =
    | AssetPage(dir: nat, name: string)
    | ArticlePage(dir: nat, name: string, header: string, body: string)
    | IndexPage(dir: nat, name: string, header: string, body: string)
    | AutoIndexPage(dir: nat, members: seq<Entry>, num: nat, max: nat, target: Value, layout: Value)

  /** The front-matter text of a renderable file. */
  function HeaderOf(text: string): string {
    Concat(FrontMatter.SplitSpec(FrontMatter.SplitLines(text)).header)
  }

  /** The body text of a renderable file. */
  function BodyOf(text: string): string {
    Concat(FrontMatter.SplitSpec(FrontMatter.SplitLines(text)).body)
  }

  /** `Page.__new__`: a renderable file is an index page when its stem is
      `index` and an article otherwise; any other file is an asset. */
  function Classify(d: nat, name: string, text: Option<string>): (p: Page)
    ensures p.dir == d && !p.AutoIndexPage? && p.name == name
    ensures p.AssetPage? <==> !FrontMatter.IsRenderable(text)
    ensures p.IndexPage? <==> FrontMatter.IsRenderable(text) && Stem(name) == "index"
    ensures p.ArticlePage? <==> FrontMatter.IsRenderable(text) && Stem(name) != "index"
    ensures (p.ArticlePage? || p.IndexPage?) ==> p.header == HeaderOf(text.value) && p.body == BodyOf(text.value)
  {
    if FrontMatter.IsRenderable(text) then
      if Stem(name) == "index" then IndexPage(d, name, HeaderOf(text.value), BodyOf(text.value))
      else ArticlePage(d, name, HeaderOf(text.value), BodyOf(text.value))
    else AssetPage(d, name)
  }

  /** `path()`: an asset keeps its source path, an article or index page
      gets `stem.html` beside its source, an auto-index page is the rendered
      `target` file name in its directory. */
  function PagePath(site: Site, p: Page): (r: Path)
    requires p.dir < |site.dirs|
    ensures r != []
    ensures ParentOf(r) == site.dirs[p.dir].path
    ensures p.AutoIndexPage? && NamesOk(site) ==> ValidName(r[|r| - 1])
  {
    var base := site.dirs[p.dir].path;
    match p
    case AssetPage(_, name) =>
      assert ParentOf(base + [name]) == base;
      base + [name]
    case ArticlePage(_, name, _, _) =>
      assert ParentOf(base + [name]) == base;
      ArticlePath(base + [name])
    case IndexPage(_, name, _, _) =>
      assert ParentOf(base + [name]) == base;
      ArticlePath(base + [name])
    case AutoIndexPage(_, _, num, max, target, _) =>
      var r := base + [site.fileName(target, num, max)];
      assert ParentOf(r) == base;
      r
  }

  /** A renderable page's own configuration: the front matter of an article
      or index page; for an auto-index page the directory's `page` setting
      when it is a mapping, else nothing. Neither has a parent. */
  function OwnConfig(site: Site, p: Page): Configuration.Config
    requires Arena(site) && DocsOk(site) && p.dir < |site.dirs| && !p.AssetPage?
  {
    match p
    case AutoIndexPage(d, _, _, _, _, _) =>
      var pc := Configuration.Get(DirConf(site, d), "page");
      Configuration.WithParent(if pc.Dict? then pc.fields else map[], None)
    case ArticlePage(_, _, header, _) => Configuration.WithParent(site.yaml(header), None)
    case IndexPage(_, _, header, _) => Configuration.WithParent(site.yaml(header), None)
  }

  /** Index pages and auto-index pages take `IndexPageMixIn.url`. */
  predicate IsIndexLike(p: Page) {
    p.IndexPage? || p.AutoIndexPage?
  }

  /** `url()`: `/` and the path for assets and articles; the
      `directory_slash` policy for index-like pages, with the page's own
      setting first and the directory's as the fallback. */
  function Url(site: Site, p: Page): (u: string)
    requires Arena(site) && DocsOk(site) && p.dir < |site.dirs|
  {
    if IsIndexLike(p) then
      IndexUrl(PagePath(site, p),
               Configuration.Get(OwnConfig(site, p), "directory_slash"),
               Configuration.Get(DirConf(site, p.dir), "directory_slash"))
    else Rooted(PagePath(site, p))
  }

  /** Two assets or articles with the same URL are the same output file. */
  lemma UrlInjectiveOnArticles(site: Site, p: Page, q: Page)
    requires Arena(site) && DocsOk(site) && p.dir < |site.dirs| && q.dir < |site.dirs|
    requires !IsIndexLike(p) && !IsIndexLike(q)
    requires ValidPath(PagePath(site, p)) && ValidPath(PagePath(site, q))
    requires Url(site, p) == Url(site, q)
    ensures PagePath(site, p) == PagePath(site, q)
  {
    RootedInjective(PagePath(site, p), PagePath(site, q));
  }

  /** `ArticlePage.layout()`: the front matter's `page.layout` when `page` is
      a mapping holding that key and the value is truthy, else
      `default.html`; an auto-index page has the layout of its bucket
      specification. An article's layout is never empty. */
  function Layout(site: Site, p: Page): (r: Value)
    requires Arena(site) && DocsOk(site) && p.dir < |site.dirs| && !p.AssetPage?
    ensures !p.AutoIndexPage? ==> Truthy(r)
    ensures !p.AutoIndexPage? ==>
              var page := Configuration.Get(OwnConfig(site, p), "page");
              var chosen := page.Dict? && "layout" in page.fields && Truthy(page.fields["layout"]);
              (chosen ==> r == page.fields["layout"]) && (!chosen ==> r == Str("default.html"))
    ensures p.AutoIndexPage? ==> r == p.layout
  {
    if p.AutoIndexPage? then p.layout
    else
      var page := Configuration.Get(OwnConfig(site, p), "page");
      if page.Dict? && "layout" in page.fields then OrElse(page.fields["layout"], Str("default.html"))
      else Str("default.html")
  }

  /** The info mapping a page contributes to relations: its `path` (with a
      leading slash) and `url`, over its own configuration when it has one. */
  function PageInfo(site: Site, p: Page): (c: Configuration.Config)
    requires Arena(site) && DocsOk(site) && p.dir < |site.dirs|
    ensures "url" in c.view && c.view["url"] == Str(Url(site, p))
    ensures "path" in c.view && c.view["path"] == Str(Rooted(PagePath(site, p)))
  {
    var info := map["path" := Str(Rooted(PagePath(site, p))), "url" := Str(Url(site, p))];
    if p.AssetPage? then Configuration.WithParent(info, None)
    else
      var own := OwnConfig(site, p);
      Configuration.OverlayScalar(own, info, "url");
      Configuration.OverlayScalar(own, info, "path");
      Configuration.Overlay(own, info)
  }

  // ------------------------------------------------------------ the index

  /** A file `_user_index_page` accepts: it matches `index.*` and is named
      `.html` or is renderable. */
  predicate IndexCandidate(e: Entry) {
    e.FileEntry? && GlobMatch("index.*", e.name) && (Suffix(e.name) == ".html" || FrontMatter.IsRenderable(e.text))
  }

  /** The first accepted candidate in sorted name order. */
  function FirstCandidate(es: seq<Entry>): (r: Option<Entry>)
    ensures r.None? <==> forall e :: e in es ==> !IndexCandidate(e)
    ensures r.Some? ==> r.value in es && IndexCandidate(r.value)
    ensures r.Some? ==> forall e :: e in es && IndexCandidate(e) && e.name != r.value.name ==> Less(r.value.name, e.name)
  {
    if es == [] then None
    else
      var rest := FirstCandidate(es[1..]);
      assert forall e :: e in es <==> e == es[0] || e in es[1..];
      if !IndexCandidate(es[0]) then rest
      else if rest.None? then Some(es[0])
      else if Less(es[0].name, rest.value.name) then
        CandidateStep(es, rest.value);
        Some(es[0])
      else
        LessOrSame(es[0].name, rest.value.name);
        rest
  }

  lemma LessOrSame(a: string, b: string)
    ensures a == b || Less(a, b) || Less(b, a)
  {
    if a != b {
      LessTotal(a, b);
    }
  }

  lemma CandidateStep(es: seq<Entry>, least: Entry)
    requires es != [] && Less(es[0].name, least.name)
    requires forall e :: e in es[1..] && IndexCandidate(e) && e.name != least.name ==> Less(least.name, e.name)
    ensures forall e :: e in es[1..] && IndexCandidate(e) && e.name != es[0].name ==> Less(es[0].name, e.name)
  {
    forall e | e in es[1..] && IndexCandidate(e) && e.name != es[0].name
      ensures Less(es[0].name, e.name)
    {
      if e.name != least.name {
        LessTransitive(es[0].name, least.name, e.name);
      }
    }
  }

  /** `_user_index_page`. */
  function UserIndex(site: Site, d: nat): Option<Entry>
    requires d < |site.dirs|
  {
    FirstCandidate(site.dirs[d].entries)
  }

  /** `get_children`: the entries the pattern matches that are not hidden
      and whose stem is not `index`, in listing order. */
  predicate IsChild(pattern: string, e: Entry) {
    GlobMatch(pattern, e.name) && !StartsWith(e.name, ".") && Stem(e.name) != "index"
  }

  function GetChildren(site: Site, d: nat, pattern: string): (r: seq<Entry>)
    requires d < |site.dirs|
    ensures forall e :: e in r <==> e in site.dirs[d].entries && IsChild(pattern, e)
  {
    Filter(site.dirs[d].entries, e => IsChild(pattern, e))
  }

  /** An `autoindex` setting the source can expand: it normalises, and each
      specification's `source` is a glob string. */
  predicate AutoIndexOk(v: Value) {
    var r := AutoIndex.NormaliseSpecs(v);
    r.Ok? && forall i :: 0 <= i < |r.value| ==> AutoIndex.SpecSource(r.value[i]).Str?
  }

  /** Every directory that expands its auto index can do so. */
  predicate SpecsOk(site: Site)
    requires Arena(site) && DocsOk(site)
  {
    forall d :: 0 <= d < |site.dirs| ==>
      var autoindex := Configuration.Get(DirConf(site, d), "autoindex");
      Truthy(autoindex) && UserIndex(site, d).None? ==> AutoIndexOk(autoindex)
  }

  /** Every rendered auto-index `target` is a single path component, so an
      auto-index page is written directly in its directory. */
  ghost predicate NamesOk(site: Site) {
    forall t, n, m :: ValidName(site.fileName(t, n, m))
  }

  /** A site the source can process without raising. */
  ghost predicate Valid(site: Site) {
    Arena(site) && DocsOk(site) && Linked(site) && SpecsOk(site) && NamesOk(site)
  }

  /** A directory that expands its auto index has specifications with glob
      sources. */
  lemma SpecsAt(site: Site, d: nat)
    requires Valid(site) && d < |site.dirs|
    requires Truthy(Configuration.Get(DirConf(site, d), "autoindex")) && UserIndex(site, d).None?
    ensures AutoIndexOk(Configuration.Get(DirConf(site, d), "autoindex"))
  {
  }

  /** The auto-index pages one bucket specification yields. */
  function SpecPages(site: Site, d: nat, spec: AutoIndex.Spec): (r: seq<Page>)
    requires d < |site.dirs| && AutoIndex.SpecSource(spec).Str?
    ensures forall q :: q in r ==> q.AutoIndexPage? && q.dir == d
    ensures |r| == AutoIndex.CeilDiv(|GetChildren(site, d, AutoIndex.SpecSource(spec).s)|, AutoIndex.SpecPageSize(spec))
  {
    var children := GetChildren(site, d, AutoIndex.SpecSource(spec).s);
    var bs := AutoIndex.Buckets(children, AutoIndex.SpecPageSize(spec));
    seq(|bs|, i requires 0 <= i < |bs| =>
      AutoIndexPage(d, bs[i].members, bs[i].num, bs[i].max, AutoIndex.SpecTarget(spec), AutoIndex.SpecLayout(spec)))
  }

  /** The children listed by a run of auto-index pages, in order. */
  function Members(ps: seq<Page>): seq<Entry> {
    if ps == [] then [] else (if ps[0].AutoIndexPage? then ps[0].members else []) + Members(ps[1..])
  }

  lemma {:induction false} MembersFlatten(ps: seq<Page>, bs: seq<AutoIndex.Bucket<Entry>>)
    requires |ps| == |bs|
    requires forall i :: 0 <= i < |ps| ==> ps[i].AutoIndexPage? && ps[i].members == bs[i].members
    ensures Members(ps) == AutoIndex.Flatten(bs)
  {
    if ps != [] {
      MembersFlatten(ps[1..], bs[1..]);
    }
  }

  /** The pages of one specification share out its children in order: page
      `i` is numbered `i`, knows the page count, holds between one and
      `pagenate` children, and carries the specification's target and
      layout. */
  lemma SpecPagesCover(site: Site, d: nat, spec: AutoIndex.Spec)
    requires d < |site.dirs| && AutoIndex.SpecSource(spec).Str?
    ensures var children := GetChildren(site, d, AutoIndex.SpecSource(spec).s);
            var r := SpecPages(site, d, spec);
            && Members(r) == children
            && forall i :: 0 <= i < |r| ==>
                 && r[i].AutoIndexPage? && r[i].num == i && r[i].max == |r|
                 && 1 <= |r[i].members| <= AutoIndex.SpecPageSize(spec)
                 && r[i].target == AutoIndex.SpecTarget(spec) && r[i].layout == AutoIndex.SpecLayout(spec)
  {
    var children := GetChildren(site, d, AutoIndex.SpecSource(spec).s);
    var bs := AutoIndex.Buckets(children, AutoIndex.SpecPageSize(spec));
    AutoIndex.BucketsFlatten(children, AutoIndex.SpecPageSize(spec));
    AutoIndex.BucketSizes(children, AutoIndex.SpecPageSize(spec));
    MembersFlatten(SpecPages(site, d, spec), bs);
  }

  predicate SourcesOk(specs: seq<AutoIndex.Spec>) {
    forall i :: 0 <= i < |specs| ==> AutoIndex.SpecSource(specs[i]).Str?
  }

  /** The pages of every specification, in order. */
  function SpecsPages(site: Site, d: nat, specs: seq<AutoIndex.Spec>): seq<Page>
    requires d < |site.dirs| && SourcesOk(specs)
  {
    if specs == [] then [] else SpecPages(site, d, specs[0]) + SpecsPages(site, d, specs[1..])
  }

  lemma {:induction false} SpecsPagesAppend(site: Site, d: nat, specs: seq<AutoIndex.Spec>, spec: AutoIndex.Spec)
    requires d < |site.dirs| && SourcesOk(specs) && AutoIndex.SpecSource(spec).Str?
    ensures SourcesOk(specs + [spec])
    ensures SpecsPages(site, d, specs + [spec]) == SpecsPages(site, d, specs) + SpecPages(site, d, spec)
  {
    if specs == [] {
      assert [spec][1..] == [];
    } else {
      assert (specs + [spec])[1..] == specs[1..] + [spec];
      SpecsPagesAppend(site, d, specs[1..], spec);
    }
  }

  /** `auto_index_pages`: nothing when `autoindex` is falsy or a user index
      exists, else the pages of each bucket specification in turn. Every
      page belongs to the directory. */
  function AutoIndexPages(site: Site, d: nat): (r: seq<Page>)
    requires Valid(site) && d < |site.dirs|
    ensures !Truthy(Configuration.Get(DirConf(site, d), "autoindex")) || UserIndex(site, d).Some? ==> r == []
    ensures forall q :: q in r ==> q.AutoIndexPage? && q.dir == d
  {
    var autoindex := Configuration.Get(DirConf(site, d), "autoindex");
    if !Truthy(autoindex) || UserIndex(site, d).Some? then []
    else
      SpecsAt(site, d);
      var specs := AutoIndex.NormaliseSpecs(autoindex).value;
      SpecsPagesDir(site, d, specs);
      SpecsPages(site, d, specs)
  }

  lemma {:induction false} SpecsPagesDir(site: Site, d: nat, specs: seq<AutoIndex.Spec>)
    requires d < |site.dirs| && SourcesOk(specs)
    ensures forall q :: q in SpecsPages(site, d, specs) ==> q.AutoIndexPage? && q.dir == d
  {
    if specs != [] {
      SpecsPagesDir(site, d, specs[1..]);
      var a, b := SpecPages(site, d, specs[0]), SpecsPages(site, d, specs[1..]);
      assert forall q :: q in a + b ==> q in a || q in b;
    }
  }

  /** `auto_index_pages` as the generator runs it: a loop over the bucket
      specifications, and for each a loop over its pages. */
  method AutoIndexPagesLoop(site: Site, d: nat) returns (pages: seq<Page>)
    requires Valid(site) && d < |site.dirs|
    ensures pages == AutoIndexPages(site, d)
  {
    var autoindex := Configuration.Get(DirConf(site, d), "autoindex");
    if !Truthy(autoindex) || UserIndex(site, d).Some? {
      return [];
    }
    SpecsAt(site, d);
    var specs := AutoIndex.NormaliseSpecs(autoindex).value;
    pages := [];
    for k := 0 to |specs|
      invariant pages == SpecsPages(site, d, specs[..k])
    {
      var more := SpecPagesLoop(site, d, specs[k]);
      assert specs[..k + 1] == specs[..k] + [specs[k]];
      SpecsPagesAppend(site, d, specs[..k], specs[k]);
      pages := pages + more;
    }
    assert specs[..|specs|] == specs;
  }

  /** The loop over the buckets of one specification: one auto-index page
      per bucket, in order. */
  method SpecPagesLoop(site: Site, d: nat, spec: AutoIndex.Spec) returns (pages: seq<Page>)
    requires d < |site.dirs| && AutoIndex.SpecSource(spec).Str?
    ensures pages == SpecPages(site, d, spec)
  {
    var children := GetChildren(site, d, AutoIndex.SpecSource(spec).s);
    var bs := AutoIndex.Paginate(children, AutoIndex.SpecPageSize(spec));
    pages := [];
    for j := 0 to |bs|
      invariant pages == SpecPages(site, d, spec)[..j]
    {
      pages := pages + [AutoIndexPage(d, bs[j].members, bs[j].num, bs[j].max,
                                      AutoIndex.SpecTarget(spec), AutoIndex.SpecLayout(spec))];
      assert SpecPages(site, d, spec)[..j + 1] == SpecPages(site, d, spec)[..j] + [SpecPages(site, d, spec)[j]];
    }
    assert SpecPages(site, d, spec)[..|bs|] == SpecPages(site, d, spec);
  }

  /** With `autoindex` a layout name and no user index, the directory gets
      one auto-index page per visible non-index entry, each holding that one
      entry, numbered in listing order, written to `index.html` through the
      file-name template and laid out with that layout. */
  lemma AutoIndexFromLayoutName(site: Site, d: nat, layout: string)
    requires Valid(site) && d < |site.dirs|
    requires Configuration.Get(DirConf(site, d), "autoindex") == Str(layout) && layout != ""
    requires UserIndex(site, d).None?
    ensures var r := AutoIndexPages(site, d);
            var children := GetChildren(site, d, "*");
            && |r| == |children|
            && forall i :: 0 <= i < |r| ==>
                 r[i] == AutoIndexPage(d, [children[i]], i, |children|, Str("index.html"), Str(layout))
  {
    var spec := map["layout" := Str(layout)];
    AutoIndex.SpecDefaults(layout);
    assert AutoIndex.NormaliseSpecs(Str(layout)).value == [spec];
    assert SpecsPages(site, d, [spec]) == SpecPages(site, d, spec) + SpecsPages(site, d, []);
    var children := GetChildren(site, d, "*");
    var bs := AutoIndex.Buckets(children, 1);
    forall i | 0 <= i < |bs|
      ensures bs[i].members == [children[i]] && bs[i].num == i && bs[i].max == |children|
    {
      AutoIndex.PageOffset(|children|, 1, i);
    }
  }

  /** `index_page`: the user index when there is one, else, with `autoindex`
      truthy, the first auto-index page if any. */
  function IndexPageOf(site: Site, d: nat): (r: Option<Page>)
    requires Valid(site) && d < |site.dirs|
    ensures UserIndex(site, d).Some? ==>
              r == Some(Classify(d, UserIndex(site, d).value.name, UserIndex(site, d).value.text))
    ensures UserIndex(site, d).None? ==>
              (r.Some? <==> AutoIndexPages(site, d) != []) &&
              (r.Some? ==> r.value == AutoIndexPages(site, d)[0])
    ensures r.Some? ==> r.value.dir == d
  {
    match UserIndex(site, d)
    case Some(e) => Some(Classify(d, e.name, e.text))
    case None =>
      if Truthy(Configuration.Get(DirConf(site, d), "autoindex")) then
        var auto := AutoIndexPages(site, d);
        if auto == [] then None else Some(auto[0])
      else None
  }

  // --------------------------------------------------------------- pages()

  /** What one directory entry contributes to `pages()`: nothing when
      hidden; a file's page unless it is an index page; a sub-directory's
      index page, if it has one. */
  function EntryPage(site: Site, d: nat, e: Entry): (r: Option<Page>)
    requires Valid(site) && d < |site.dirs| && EntryLinked(site, d, e)
    ensures r.Some? && e.FileEntry? ==> r.value.dir == d && (r.value.AssetPage? || r.value.ArticlePage?)
    ensures r.Some? && e.DirEntry? ==> r.value.dir == e.id && r == IndexPageOf(site, e.id)
    ensures StartsWith(e.name, ".") ==> r.None?
    ensures !StartsWith(e.name, ".") && e.FileEntry? ==>
              (r.None? <==> Stem(e.name) == "index" && FrontMatter.IsRenderable(e.text)) &&
              (r.Some? ==> r.value == Classify(d, e.name, e.text))
    ensures !StartsWith(e.name, ".") && e.DirEntry? ==> r == IndexPageOf(site, e.id)
  {
    if StartsWith(e.name, ".") then None
    else
      match e
      case FileEntry(name, text) =>
        var p := Classify(d, name, text);
        if p.IndexPage? then None else Some(p)
      case DirEntry(_, id) => IndexPageOf(site, id)
  }

  /** A page `pages()` of directory `d` may yield: a non-index page of `d`
      itself, or the index page of a sub-directory of `d`. */
  predicate ListedIn(site: Site, d: nat, q: Page)
    requires Valid(site) && d < |site.dirs|
  {
    && q.dir < |site.dirs|
    && (q.dir == d ==> q.AssetPage? || q.ArticlePage?)
    && (q.dir != d ==> site.dirs[q.dir].parent == Some(d) && IndexPageOf(site, q.dir) == Some(q))
  }

  function PagesFrom(site: Site, d: nat, k: nat): (r: seq<Page>)
    requires Valid(site) && d < |site.dirs| && k <= |site.dirs[d].entries|
    ensures forall q :: q in r ==> ListedIn(site, d, q)
    decreases |site.dirs[d].entries| - k
  {
    if k == |site.dirs[d].entries| then []
    else
      var e := site.dirs[d].entries[k];
      var rest := PagesFrom(site, d, k + 1);
      match EntryPage(site, d, e)
      case None => rest
      case Some(p) =>
        assert e.DirEntry? ==> e.id != d && site.dirs[e.id].parent == Some(d);
        [p] + rest
  }

  /** `pages()`: the pages a directory lists, in listing order. Its own
      index and auto-index pages are never among them. */
  function Pages(site: Site, d: nat): (r: seq<Page>)
    requires Valid(site) && d < |site.dirs|
    ensures forall q :: q in r ==> ListedIn(site, d, q)
  {
    PagesFrom(site, d, 0)
  }

  /** Every visible non-index file and every sub-directory with an index
      page is listed. */
  lemma PagesComplete(site: Site, d: nat)
    requires Valid(site) && d < |site.dirs|
    ensures forall i :: 0 <= i < |site.dirs[d].entries| && EntryPage(site, d, site.dirs[d].entries[i]).Some? ==>
              EntryPage(site, d, site.dirs[d].entries[i]).value in Pages(site, d)
  {
    PagesFromComplete(site, d, 0);
  }

  lemma {:induction false} PagesFromComplete(site: Site, d: nat, k: nat)
    requires Valid(site) && d < |site.dirs| && k <= |site.dirs[d].entries|
    ensures forall i :: k <= i < |site.dirs[d].entries| && EntryPage(site, d, site.dirs[d].entries[i]).Some? ==>
              EntryPage(site, d, site.dirs[d].entries[i]).value in PagesFrom(site, d, k)
    decreases |site.dirs[d].entries| - k
  {
    if k < |site.dirs[d].entries| {
      PagesFromComplete(site, d, k + 1);
      PagesFromStep(site, d, k);
      forall i | k < i < |site.dirs[d].entries| && EntryPage(site, d, site.dirs[d].entries[i]).Some?
        ensures EntryPage(site, d, site.dirs[d].entries[i]).value in PagesFrom(site, d, k)
      {
        assert EntryPage(site, d, site.dirs[d].entries[i]).value in PagesFrom(site, d, k + 1);
      }
    }
  }

  /** One step of `PagesFrom`: it keeps the later pages and adds entry
      `k`'s page, if any. */
  lemma PagesFromStep(site: Site, d: nat, k: nat)
    requires Valid(site) && d < |site.dirs| && k < |site.dirs[d].entries|
    ensures forall q :: q in PagesFrom(site, d, k + 1) ==> q in PagesFrom(site, d, k)
    ensures EntryPage(site, d, site.dirs[d].entries[k]).Some? ==>
              EntryPage(site, d, site.dirs[d].entries[k]).value in PagesFrom(site, d, k)
  {
  }

  // ------------------------------------------------------------- templates

  /** The resolver of a directory's `TemplateManager`: its own folder, with
      the parent directory's resolver as fallback and none at the root. */
  function ResolverOf(site: Site, d: nat): (r: Templates.Resolver)
    requires Arena(site) && d < |site.dirs|
    ensures r.location == site.dirs[d].path && r.templates == site.dirs[d].templates
    ensures r.parent.None? <==> d == 0
    ensures r.parent.Some? ==> r.parent.value == ResolverOf(site, site.dirs[d].parent.value)
    decreases d
  {
    var dir := site.dirs[d];
    Templates.Resolver(dir.path, dir.templates,
      if dir.parent.None? then None else Some(ResolverOf(site, dir.parent.value)))
  }

  /** The directory and its ancestors up to the root, nearest first. */
  function Ancestors(site: Site, d: nat): (a: seq<nat>)
    requires Arena(site) && d < |site.dirs|
    ensures |a| >= 1 && a[0] == d && a[|a| - 1] == 0
    ensures forall i :: 0 <= i < |a| ==> a[i] < |site.dirs|
    decreases d
  {
    if site.dirs[d].parent.None? then [d] else [d] + Ancestors(site, site.dirs[d].parent.value)
  }

  /** The resolver chain follows the directory chain exactly. */
  lemma {:induction false} ChainFollowsAncestors(site: Site, d: nat)
    requires Arena(site) && d < |site.dirs|
    ensures var c := Templates.Chain(ResolverOf(site, d));
            var a := Ancestors(site, d);
            |c| == |a| && forall i :: 0 <= i < |a| ==> c[i] == ResolverOf(site, a[i])
    decreases d
  {
    if site.dirs[d].parent.Some? {
      ChainFollowsAncestors(site, site.dirs[d].parent.value);
    }
  }

  /** A template is found exactly when the directory or an ancestor holds
      it in `.template`, and it comes from the nearest one that does. */
  lemma TemplateFromNearestAncestor(site: Site, d: nat, name: string)
    requires Arena(site) && d < |site.dirs|
    ensures var a := Ancestors(site, d);
            var res := Templates.GetSource(ResolverOf(site, d), name);
            && (res.Ok? <==> exists i :: 0 <= i < |a| && name in site.dirs[a[i]].templates)
            && (res.Ok? ==> exists i :: (0 <= i < |a| && name in site.dirs[a[i]].templates
                            && (forall j :: 0 <= j < i ==> name !in site.dirs[a[j]].templates)
                            && res.value.source == site.dirs[a[i]].templates[name].source
                            && res.value.filename == site.dirs[a[i]].path + [".template", name]))
  {
    var a := Ancestors(site, d);
    var c := Templates.Chain(ResolverOf(site, d));
    ChainFollowsAncestors(site, d);
    Templates.GetSourceNearest(ResolverOf(site, d), name);
    var n := Templates.Nearest(c, name);
    if n < |c| {
      assert name in site.dirs[a[n]].templates;
    } else {
      assert forall i :: 0 <= i < |a| ==> name !in site.dirs[a[i]].templates by {
        assert forall i :: 0 <= i < |a| ==> c[i].templates == site.dirs[a[i]].templates;
      }
    }
  }
}
