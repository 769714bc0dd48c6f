/** The older single-file generator (main.py): its `Page` and `Directory`
    classes derive output paths, URLs and layouts from a page's path below
    the source root and from the configuration of its directory. The merge
    and the configuration chain of that file are the ones of the
    `Configuration` module; what differs is modelled here. */
module Legacy {
  import opened Values
  import opened Paths
  import Configuration
  import FrontMatter
  import Tree

  // ---------------------------------------------------------------------
  // Loading a page
  // ---------------------------------------------------------------------

  /** What a page holds after loading: decoded text, or the raw bytes of a
      file that is not renderable. */
  datatype Content = Text(text: string) | Raw(bytes: seq<bv8>)

  /** `Page.__init__`, reading the file: `text` is the file decoded as text
      (`None` when that fails) and `raw` its bytes. A renderable file is
      scanned into front matter and body exactly as the newer reader does; any
      other file keeps its bytes and has an empty front matter. */
  method LoadPage(text: Option<string>, raw: seq<bv8>) returns (renderable: bool, header: string, content: Content)
    ensures renderable == FrontMatter.IsRenderable(text)
    ensures renderable ==>
              && header == Concat(FrontMatter.SplitSpec(FrontMatter.SplitLines(text.value)).header)
              && content == Text(Concat(FrontMatter.SplitSpec(FrontMatter.SplitLines(text.value)).body))
    ensures !renderable ==> header == "" && content == Raw(raw)
  {
    renderable := FrontMatter.IsRenderable(text);
    if renderable {
      var body;
      header, body := FrontMatter.ReadRenderableFile(text.value);
      content := Text(body);
    } else {
      header := "";
      content := Raw(raw);
    }
  }

  // ---------------------------------------------------------------------
  // Output paths and URLs
  // ---------------------------------------------------------------------

  /** `relative_path.stem + '.html'`. */
  function OutputName(rel: Path): string
    requires rel != []
  {
    Stem(rel[|rel| - 1]) + ".html"
  }

  /** A page counts as an index when its output name is `index.html`, that
      is when its stem is `index`. */
  lemma OutputNameIndex(rel: Path)
    requires rel != []
    ensures OutputName(rel) == "index.html" <==> Stem(rel[|rel| - 1]) == "index"
  {
    var stem := Stem(rel[|rel| - 1]);
    if OutputName(rel) == "index.html" {
      assert stem == OutputName(rel)[..|stem|];
      assert |stem| == 5;
    }
  }

  /** `Page.output_path` as written: the source's directory plus the stem
      with `.html`, for every page, renderable or not. */
  function OutputPath(rel: Path): (r: Path)
    requires rel != []
  {
    ParentOf(rel) + [OutputName(rel)]
  }

  /** The older output path is the newer article path, for every file. */
  lemma OutputPathIsArticlePath(rel: Path)
    requires rel != []
    ensures OutputPath(rel) == ArticlePath(rel)
    ensures ParentOf(OutputPath(rel)) == ParentOf(rel)
  {
  }

  /** A file that is not renderable is written, bytes unchanged, to a path
      ending in `.html`: `a.md` and `a.png` in one directory are both
      written to `a.html`. */
  lemma AssetOutputCollides()
    ensures OutputPath(["logo.png"]) == ["logo.html"]
    ensures OutputPath(["a.md"]) == OutputPath(["a.png"])
  {
    assert "logo.png" == "logo" + ".png" && "a.md" == "a" + ".md" && "a.png" == "a" + ".png";
    StemSuffixOf("logo", ".png");
    StemSuffixOf("a", ".md");
    StemSuffixOf("a", ".png");
    assert ParentOf(["logo.png"]) == [] && ParentOf(["a.md"]) == [] && ParentOf(["a.png"]) == [];
    assert OutputName(["logo.png"]) == "logo" + ".html" == "logo.html";
  }

  /** The stem of `base + suffix`, for a dot-free base and a one-dot suffix. */
  lemma StemSuffixOf(base: string, suffix: string)
    requires base != [] && '.' !in base
    requires |suffix| >= 2 && suffix[0] == '.' && '.' !in suffix[1..]
    ensures Stem(base + suffix) == base
  {
    var n := base + suffix;
    assert n[|base|] == '.';
    forall j | |base| < j < |n|
      ensures n[j] != '.'
    {
      assert n[j] == suffix[1..][j - |base| - 1];
    }
    LastDotAt(n, |base|);
    assert n[..|base|] == base;
  }

  /** The last dot of a name is the dot after which no dot follows. */
  lemma {:induction false} LastDotAt(n: string, i: nat)
    requires i < |n| && n[i] == '.'
    requires forall j :: i < j < |n| ==> n[j] != '.'
    ensures LastDot(n) == i
    decreases |n|
  {
    if n[|n| - 1] != '.' {
      var m := n[..|n| - 1];
      assert forall j :: i < j < |m| ==> m[j] == n[j];
      LastDotAt(m, i);
    }
  }

  /** The output path the later `AssetPage` gives a file that is not
      renderable: its source path unchanged. Renderable pages keep the older
      rule. */
  function FixedOutputPath(rel: Path, renderable: bool): (r: Path)
    requires rel != []
  {
    if renderable then OutputPath(rel) else rel
  }

  /** A non-renderable file is copied to its own path, and it can no longer
      collide with a page unless its own suffix is `.html`. */
  lemma FixedOutputPathKeepsAssets(asset: Path, page: Path)
    requires asset != [] && page != [] && ValidPath(asset) && ValidPath(page)
    ensures FixedOutputPath(asset, false) == asset
    ensures Suffix(asset[|asset| - 1]) != ".html" ==> FixedOutputPath(asset, false) != FixedOutputPath(page, true)
  {
    ArticlePathShape(page);
  }

  /** `Page.url` as written, given the page's `directory_slash` setting:
      `/dir/stem.html` for any page whose stem is not `index`; for an index,
      `/dir/index.html` under `'index.html'`, `/dir` under `False`, `/` at
      the root, and `/dir/` otherwise. */
  function Url(rel: Path, slash: Value): string
    requires rel != []
  {
    var dir := Rooted(ParentOf(rel));
    var name := OutputName(rel);
    if name == "index.html" then
      if slash == Str("index.html") then Rooted(ParentOf(rel) + ["index.html"])
      else if slash == Bool(false) then dir
      else if dir == "/" then "/"
      else dir + "/"
    else Rooted(ParentOf(rel) + [name])
  }

  /** The older URL rules agree with the newer ones: an index follows the
      newer slash policy on its output path with no setting of its own, any
      other page gets the URL of its output path. */
  lemma UrlAgreesWithNewerRules(rel: Path, slash: Value)
    requires rel != []
    ensures Stem(rel[|rel| - 1]) == "index" ==> Url(rel, slash) == IndexUrl(OutputPath(rel), Null, slash)
    ensures Stem(rel[|rel| - 1]) != "index" ==> Url(rel, slash) == Rooted(OutputPath(rel))
  {
    OutputNameIndex(rel);
    assert ParentOf(OutputPath(rel)) == ParentOf(rel);
  }

  /** The URL of a page that is not an index is the rooted output path, so
      it ends in `.html`. */
  lemma ArticleUrl(rel: Path, slash: Value)
    requires rel != [] && ValidPath(rel) && Stem(rel[|rel| - 1]) != "index"
    ensures Url(rel, slash) == Rooted(ArticlePath(rel))
  {
    OutputNameIndex(rel);
  }

  /** The later fix of the URL of a file that is not renderable: the rooted
      source path. */
  function FixedUrl(rel: Path, renderable: bool, slash: Value): string
    requires rel != []
  {
    if renderable then Url(rel, slash) else Rooted(rel)
  }

  /** With the fix, the URL of every page is the rooted form of its output
      path, except for an index page, whose URL names its directory unless
      `directory_slash` is `'index.html'`. */
  lemma FixedUrlMatchesOutput(rel: Path, renderable: bool, slash: Value)
    requires rel != [] && ValidPath(rel)
    ensures !(renderable && Stem(rel[|rel| - 1]) == "index") ==>
              FixedUrl(rel, renderable, slash) == Rooted(FixedOutputPath(rel, renderable))
    ensures renderable && Stem(rel[|rel| - 1]) == "index" && slash == Str("index.html") ==>
              FixedUrl(rel, renderable, slash) == Rooted(FixedOutputPath(rel, renderable))
  {
    OutputNameIndex(rel);
  }

  // ---------------------------------------------------------------------
  // Configuration of a page and its layout
  // ---------------------------------------------------------------------

  /** The `page` entry the second overlay of `Page.__init__` adds. */
  function PageEntry(rel: Path, renderable: bool, slash: Value): Mapping
    requires rel != []
  {
    map["path" := Str(Join(FixedOutputPath(rel, renderable), "/")), "url" := Str(FixedUrl(rel, renderable, slash))]
  }

  /** `Page.config`: the directory's configuration overlaid with the front
      matter under `page`, then with the page's output path and URL under
      `page`. The URL is computed from the first overlay's
      `directory_slash`. */
  function PageConfig(dirConf: Configuration.Config, header: Mapping, rel: Path, renderable: bool): Configuration.Config
    requires rel != []
  {
    var first := Configuration.Overlay(dirConf, map["page" := Dict(header)]);
    var slash := Configuration.Get(first, "directory_slash");
    Configuration.Overlay(first, map["page" := Dict(PageEntry(rel, renderable, slash))])
  }

  /** Overlaying under `page` leaves every other key alone. */
  lemma OverlayPageKeeps(c: Configuration.Config, v: Value, key: string)
    requires key != "page"
    ensures Configuration.Get(Configuration.Overlay(c, map["page" := v]), key) == Configuration.Get(c, key)
  {
    if key in c.view {
      Configuration.OverlayKeeps(c, map["page" := v], key);
    }
  }

  /** Front matter cannot change `directory_slash`: a page's URL follows its
      directory's setting. The `page` entry is a mapping holding the output
      path and the URL, and every other front-matter key that is not a
      mapping keeps its value. */
  lemma PageConfigFacts(dirConf: Configuration.Config, header: Mapping, rel: Path, renderable: bool)
    requires rel != []
    ensures var c := PageConfig(dirConf, header, rel, renderable);
            var slash := Configuration.Get(dirConf, "directory_slash");
            && Configuration.Get(c, "directory_slash") == slash
            && Configuration.Get(c, "page").Dict?
            && "url" in Configuration.Get(c, "page").fields
            && Configuration.Get(c, "page").fields["url"] == Str(FixedUrl(rel, renderable, slash))
            && "path" in Configuration.Get(c, "page").fields
            && Configuration.Get(c, "page").fields["path"] == Str(Join(FixedOutputPath(rel, renderable), "/"))
            && forall k :: k in header && k != "path" && k != "url" && !header[k].Dict? ==>
                 k in Configuration.Get(c, "page").fields && Configuration.Get(c, "page").fields[k] == header[k]
  {
    var first := Configuration.Overlay(dirConf, map["page" := Dict(header)]);
    OverlayPageKeeps(dirConf, Dict(header), "directory_slash");
    var slash := Configuration.Get(first, "directory_slash");
    var entry := PageEntry(rel, renderable, slash);
    var c := Configuration.Overlay(first, map["page" := Dict(entry)]);
    OverlayPageKeeps(first, Dict(entry), "directory_slash");
    Configuration.MergeRules(dirConf.view, map["page" := Dict(header)]);
    var p1 := first.view["page"];
    assert p1.Dict?;
    Configuration.MergeRules(first.view, map["page" := Dict(entry)]);
    assert c.view["page"] == Dict(Configuration.Merge(p1.fields, entry));
    Configuration.MergeRules(p1.fields, entry);
    forall k | k in header && k != "path" && k != "url" && !header[k].Dict?
      ensures k in c.view["page"].fields && c.view["page"].fields[k] == header[k]
    {
      if "page" in dirConf.view && dirConf.view["page"].Dict? {
        assert p1 == Dict(Configuration.Merge(dirConf.view["page"].fields, header));
        Configuration.MergeRules(dirConf.view["page"].fields, header);
      }
      assert p1.fields[k] == header[k];
    }
  }

  /** `Page.layout`: the `layout` entry of the page's configuration when it
      is truthy, else `default.html`. The source demands that `page` is a
      mapping, which `PageConfig` always gives. */
  function Layout(c: Configuration.Config): (r: Value)
    requires Configuration.Get(c, "page").Dict?
    ensures Truthy(r)
    ensures var page := Configuration.Get(c, "page").fields;
            && ("layout" in page && Truthy(page["layout"]) ==> r == page["layout"])
            && (!("layout" in page && Truthy(page["layout"])) ==> r == Str("default.html"))
  {
    var page := Configuration.Get(c, "page").fields;
    if "layout" in page then OrElse(page["layout"], Str("default.html")) else Str("default.html")
  }

  /** A layout given in the front matter is the page's layout; an empty one,
      or none at all when the directory's `page` entry names none either,
      gives `default.html`. */
  lemma LayoutFromFrontMatter(dirConf: Configuration.Config, header: Mapping, rel: Path, renderable: bool)
    requires rel != []
    ensures Configuration.Get(PageConfig(dirConf, header, rel, renderable), "page").Dict?
    ensures var c := PageConfig(dirConf, header, rel, renderable);
            && ("layout" in header && Truthy(header["layout"]) && !header["layout"].Dict? ==> Layout(c) == header["layout"])
            && ("layout" in header && !Truthy(header["layout"]) && !header["layout"].Dict? ==> Layout(c) == Str("default.html"))
  {
    PageConfigFacts(dirConf, header, rel, renderable);
  }

  // ---------------------------------------------------------------------
  // Directories
  // ---------------------------------------------------------------------

  /** `Directory.relative_path`, which is also its `output_path`: the
      directory's path plus `index.html`. */
  function DirOutputPath(dirPath: Path): (r: Path)
    ensures r != [] && ParentOf(r) == dirPath && r[|r| - 1] == "index.html"
  {
    dirPath + ["index.html"]
  }

  /** The URL of a directory: `/dir/` by default, `/dir` under `False`,
      `/dir/index.html` under `'index.html'`, and `/` (or `/index.html`) for
      the root. */
  lemma DirUrl(dirPath: Path, slash: Value)
    requires ValidPath(dirPath)
    ensures var u := Url(DirOutputPath(dirPath), slash);
            && (slash == Str("index.html") ==> u == Rooted(dirPath + ["index.html"]))
            && (slash != Str("index.html") && (slash == Bool(false) || dirPath == []) ==> u == Rooted(dirPath))
            && (slash != Str("index.html") && slash != Bool(false) && dirPath != [] ==> u == Rooted(dirPath) + "/")
  {
    var rel := DirOutputPath(dirPath);
    assert Stem("index.html") == "index" by {
      HtmlName("index");
      assert "index" + ".html" == "index.html";
    }
    assert OutputName(rel) == "index.html";
    RootedIsRoot(dirPath);
  }

  /** The root directory's URL is `/` unless `directory_slash` is
      `'index.html'`. */
  lemma RootDirUrl(root: Path, slash: Value)
    requires root == []
    ensures slash != Str("index.html") ==> Url(DirOutputPath(root), slash) == "/"
    ensures slash == Str("index.html") ==> Url(DirOutputPath(root), slash) == "/index.html"
  {
    DirUrl(root, slash);
    assert root + ["index.html"] == ["index.html"];
    assert Join(["index.html"], "/") == "index.html";
  }

  /** `Directory.config`: the `.bg.yml` document over the parent's
      configuration, then the output path and URL under `page`; the URL uses
      the directory's own `directory_slash`. */
  function DirConfig(bgYml: Option<Value>, parent: Option<Configuration.Config>, dirPath: Path)
    : (r: Result<Configuration.Config, Configuration.ConfigError>)
    ensures r.Ok? <==> Configuration.FromPath(bgYml, parent).Ok?
  {
    match Configuration.FromPath(bgYml, parent)
    case Err(e) => Err(e)
    case Ok(c) =>
      var rel := DirOutputPath(dirPath);
      var slash := Configuration.Get(c, "directory_slash");
      Ok(Configuration.Overlay(c, map["page" := Dict(map["path" := Str(Join(rel, "/")), "url" := Str(Url(rel, slash))])]))
  }

  /** A directory without `.bg.yml` has its parent's settings, and its URL
      is computed from the parent's `directory_slash`. */
  lemma DirConfigInherits(parent: Configuration.Config, dirPath: Path)
    ensures var r := DirConfig(None, Some(parent), dirPath);
            && r.Ok?
            && Configuration.Get(r.value, "directory_slash") == Configuration.Get(parent, "directory_slash")
            && Configuration.Get(r.value, "autoindex") == Configuration.Get(parent, "autoindex")
  {
    var rel := DirOutputPath(dirPath);
    var v := Dict(map["path" := Str(Join(rel, "/")), "url" := Str(Url(rel, Configuration.Get(parent, "directory_slash")))]);
    OverlayPageKeeps(parent, v, "directory_slash");
    OverlayPageKeeps(parent, v, "autoindex");
  }

  /** `Directory.layout`: the `autoindex` value when truthy, else
      `index.html`. */
  function DirLayout(c: Configuration.Config): (r: Value)
    ensures Truthy(r)
    ensures Truthy(Configuration.Get(c, "autoindex")) ==> r == Configuration.Get(c, "autoindex")
    ensures !Truthy(Configuration.Get(c, "autoindex")) ==> r == Str("index.html")
  {
    OrElse(Configuration.Get(c, "autoindex"), Str("index.html"))
  }

  /** What `Directory.index_page` returns. */
  datatype IndexChoice = Candidate(name: string) | Itself | NoIndex

  predicate IsCandidate(name: string) {
    Tree.GlobMatch("index.*", name)
  }

  /** `Directory.index_page`, given the names in the directory: the first
      name that `index.*` matches in sorted order, else the directory itself
      when `autoindex` is truthy, else nothing. (The last branch's `None`
      has no `return`; the result is `None` all the same.) */
  function IndexPage(names: seq<string>, autoindex: Value): (r: IndexChoice)
    ensures r.Candidate? <==> exists n :: n in names && StartsWith(n, "index.")
    ensures r.Candidate? ==> r.name in names && StartsWith(r.name, "index.")
    ensures r.Candidate? ==> forall n :: n in names && StartsWith(n, "index.") && n != r.name ==> Less(r.name, n)
    ensures r == Itself <==> (forall n :: n in names ==> !StartsWith(n, "index.")) && Truthy(autoindex)
    ensures r == NoIndex <==> (forall n :: n in names ==> !StartsWith(n, "index.")) && !Truthy(autoindex)
  {
    var candidates := Filter(names, IsCandidate);
    forall n
      ensures IsCandidate(n) <==> StartsWith(n, "index.")
    {
      Tree.IndexGlob(n);
    }
    if |candidates| > 0 then
      assert candidates[0] in candidates;
      Candidate(Least(candidates))
    else if Truthy(autoindex) then Itself
    else NoIndex
  }

  /** `Directory.is_page` (`auto_index_enabled`): `autoindex` is truthy and
      an index page exists. */
  predicate IsPage(names: seq<string>, autoindex: Value) {
    Truthy(autoindex) && IndexPage(names, autoindex) != NoIndex
  }

  /** A directory is rendered exactly when `autoindex` is truthy: with it
      set, `index_page` never returns `None`. */
  lemma IsPageIffAutoindex(names: seq<string>, autoindex: Value)
    ensures IsPage(names, autoindex) <==> Truthy(autoindex)
  {
  }

  // ---------------------------------------------------------------------
  // Relations and the shared ignore set
  // ---------------------------------------------------------------------

  /** The URLs of the `children` and `brothers` lists of `relations_info`,
      one level deep. */
  datatype Listing = Listing(children: seq<string>, brothers: seq<string>)

  /** The filter `if x.url not in ignore_urls`. */
  function Unignored(urls: seq<string>, ignore: set<string>): (r: seq<string>)
    ensures forall u :: u in r <==> u in urls && u !in ignore
  {
    Filter(urls, u => u !in ignore)
  }

  /** The default argument of `relations_info`: one set, created once with
      the function, that every call without an argument shares. */
  class SharedDefault {
    var urls: set<string>

    constructor()
      ensures urls == {}
    {
      urls := {};
    }

    /** `relations_info()` as written, as `render` calls it: the page's URL
        is added to the shared set itself, which outlives the call.
        `childUrls` and `brotherUrls` are the URLs of the base's child pages
        and of its parent's (empty when the base is not a directory). */
    method RelationsInfo(url: string, childUrls: seq<string>, brotherUrls: seq<string>) returns (r: Listing)
      modifies this
      ensures urls == old(urls) + {url}
      ensures r == Listing(Unignored(childUrls, urls), Unignored(brotherUrls, urls))
    {
      urls := urls + {url};
      r := Listing(Unignored(childUrls, urls), Unignored(brotherUrls, urls));
    }
  }

  /** Two index pages, `/about/` and `/blog/`, rendered in that order: the
      second one no longer lists the first among its brothers, because the
      first call left `/about/` in the shared default set. */
  method RenderTwice() returns (first: Listing, second: Listing)
    ensures first.brothers == ["/blog/"]
    ensures second.brothers == []
  {
    var shared := new SharedDefault();
    var brothers := ["/about/", "/blog/"];
    first := shared.RelationsInfo("/about/", [], brothers);
    second := shared.RelationsInfo("/blog/", [], brothers);
    assert "/about/" != "/blog/" by {
      assert "/about/"[1] != "/blog/"[1];
    }
    assert Filter(brothers[1..], u => u !in {"/about/"}) == ["/blog/"];
    assert first.brothers == Filter(brothers, u => u !in {"/about/"});
  }

  /** `relations_info` as the later code writes it: the set is copied before
      the page's URL is added, so a call affects no other call. */
  function RelationsInfoFixed(ignore: set<string>, url: string, childUrls: seq<string>, brotherUrls: seq<string>)
    : (r: Listing)
  {
    var ignore' := ignore + {url};
    Listing(Unignored(childUrls, ignore'), Unignored(brotherUrls, ignore'))
  }

  /** Called without an ignore set, the fixed version lists every child and
      brother but the page itself, whatever was rendered before. */
  lemma FixedListsEveryOther(url: string, childUrls: seq<string>, brotherUrls: seq<string>)
    ensures var r := RelationsInfoFixed({}, url, childUrls, brotherUrls);
            && (forall u :: u in childUrls && u != url ==> u in r.children)
            && (forall u :: u in brotherUrls && u != url ==> u in r.brothers)
            && url !in r.children && url !in r.brothers
  {
  }

  /** The same two renders with the fix: each index lists the other. */
  lemma FixedRenderTwice()
    ensures RelationsInfoFixed({}, "/about/", [], ["/about/", "/blog/"]).brothers == ["/blog/"]
    ensures RelationsInfoFixed({}, "/blog/", [], ["/about/", "/blog/"]).brothers == ["/about/"]
  {
    assert "/about/" != "/blog/" by {
      assert "/about/"[1] != "/blog/"[1];
    }
    var bs := ["/about/", "/blog/"];
    assert Filter(bs[1..], u => u !in {"/about/"}) == ["/blog/"];
    assert Filter(bs[1..], u => u !in {"/blog/"}) == [];
  }
}
