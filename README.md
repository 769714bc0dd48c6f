# BlankGenerator page tree, modelled in Dafny

BlankGenerator is a static site generator. It walks a source directory
and classifies each file by its first four characters:

- a file that starts with the front-matter marker `---\n` is renderable;
- a renderable file whose stem is `index` is an index page;
- any other renderable file is an article;
- every other file is an asset.

Each directory's configuration is its `.bg.yml` document deep-merged over
its parent's. A directory with `autoindex` set and no index file of its own
gets generated, paginated index pages. Each page gets an output path, a URL
(index pages follow the `directory_slash` setting), a layout and
navigational relations: parent, children and brothers. Relations are
computed recursively, and a set of URLs already visited ends the
recursion. Templates are found by walking from a directory's `.template`
folder up to the root. Converters are chosen by the page's suffix, with
identity as the fallback.

This project models that core: the newer `nodes.py`, `config.py`,
`template.py`, `plugin.py` and `register.py`, and the older single-file
generator `main.py`. It proves the properties those files promise.

## Modules

| file | module | models |
|---|---|---|
| `values.dfy` | `Values` | YAML-like values, Python truthiness, `or`, string order, lower-casing |
| `config.dfy` | `Configuration` | `merge_dict` and the `Config` overlay chain |
| `frontmatter.dfy` | `FrontMatter` | `is_renderable` and `read_renderable_file` |
| `paths.dfy` | `Paths` | stem and suffix, output paths, `url()` and the `directory_slash` policy |
| `autoindex.dfy` | `AutoIndex` | normalising `autoindex` settings, and pagination |
| `templates.dfy` | `Templates` | the `Resolver` fallback chain |
| `tree.dfy` | `Tree` | directories, classification, pages, index pages, auto-index pages, template managers |
| `relations.dfy` | `Relations` | `parent_page`, `children`, `brothers`, `relations_info` |
| `converters.dfy` | `Converters` | the suffix-keyed registry of `plugin.py` |
| `register.dfy` | `MimeRegistry` | the mimetype-keyed registry of `register.py` |
| `legacy.dfy` | `Legacy` | the `Page` and `Directory` rules of `main.py` |

### How the tree is represented

The source tree is a `Tree.Site`, an arena of directories indexed by
number; directory 0 is the root.

- Each directory holds:
  - its path below the root;
  - its parent's index;
  - its `.bg.yml` document, already parsed;
  - its `.template` files;
  - its entries, in listing order.
- A file entry carries its text, or `None` when the file cannot be read as
  text.
- YAML parsing of front matter is a function the `Site` carries.
- So is the naming of auto-index files (`fname`).

The configuration on which `main.py` and the newer code agree (`merge_dict`,
`Config`) is modelled once, in `Configuration`. Merging was modelled as a
specification function `Merge`. The loop of the source is modelled as the
method `MergeDict`, proved equal to it for any key order.

### Notes on the source

- Assets are listed in relations: `Directory.pages` (nodes.py:173-181)
  yields every page that is not index-like, assets included, and so does
  `Tree.Pages`.
- A page's `directory_slash` falls back to its directory's setting
  (nodes.py:394-407); this is `Paths.IndexUrl`. In main.py a page's own
  front matter sits under `page`, so it never changes `directory_slash`
  (`Legacy.PageConfigFacts`).

## Model

| member | source | states |
|---|---|---|
| Configuration.MergeDict | config.py:7-31 | the loop returns exactly `Merge(x, y)`, for any order the keys are visited; the older copy at main.py:42-66 is the same code |
| Configuration.MergeRules | config.py:20-31 | the keys of the merge are the keys of both sides; a key only in `x` keeps its value; a key of `y` that is not a mapping on both sides takes `y`'s value; a mapping on both sides is merged recursively |
| Configuration.MergeOverrideDoctest | config.py:12-13 | the first doctest: `{'a':1,'b':2,'c':4}` merged with `{'c':0,'d':10}`; the older copy at main.py:47-48 is the same code |
| Configuration.MergeNestedDoctest | config.py:15-17 | the nested doctest: a mapping under `parent` on both sides is merged key by key, and a list is taken whole; the older copy at main.py:50-52 is the same code |
| Configuration.MergeEmptyRight | config.py:20-31 | merging an empty override changes nothing |
| Configuration.MergeEmptyLeft | config.py:20-31 | merging onto an empty mapping gives the override |
| Configuration.MergeIdempotent | config.py:20-31 | merging a mapping with itself gives that mapping |
| Configuration.MergeAbsorb | config.py:74-75 | merging `x` under a `merge(x, y)` changes nothing, so `overlay`'s double merge is a single one |
| Configuration.MergeNotAssociative | config.py:25-29 | a counterexample: once a mapping meets a scalar, merge is not associative |
| Configuration.WithParent | config.py:35-46 | without a parent the view is the data; with one, the keys are both sides'; a non-mapping value of the data wins; a key the data lacks keeps the parent's value |
| Configuration.NewConfig | config.py:35-46 | an empty document gives the parent's view, or an empty one; a mapping gives the merge; a list or string document is an error; the older copy at main.py:70-81 is the same code |
| Configuration.FromPath | config.py:48-57 | without `.bg.yml` the parent's configuration is inherited unchanged; the result is an error exactly when the document is neither empty nor a mapping; the older copy at main.py:83-92 is the same code |
| Configuration.Get | config.py:65-66 | a missing key reads as `None`; a present key gives its value; the older copy at main.py:94-95 is the same code |
| Configuration.Overlay | config.py:74-75 | the overlaid view is `Merge(c.view, another)`; the older copy at main.py:109-110 is the same code |
| Configuration.OverlayScalar | config.py:74-75 | a non-mapping value from the overlay is what the result holds |
| Configuration.OverlayKeeps | config.py:74-75 | a key the overlay does not mention keeps its value |
| Configuration.OverlayEmpty | config.py:74-75 | `overlay({})` is the identity |
| Configuration.OverlaySelf | config.py:74-75 | overlaying a configuration with its own `as_dict()` is the identity |
| FrontMatter.SplitLinesSound | nodes.py:48 | the lines of a file concatenate back to the file; every line but the last ends in a newline and holds no other |
| FrontMatter.SplitLinesConcat | nodes.py:48 | splitting the concatenation of well-formed lines gives those lines back |
| FrontMatter.RenderableIffFirstLine | nodes.py:26-29 | reading four characters and comparing with `---\n` is the same as asking whether the first line is the marker |
| FrontMatter.IsRenderableDoctests | nodes.py:13-24 | a file starting with the marker is renderable, plain content is not, and an unreadable file is not |
| FrontMatter.FirstMarker | nodes.py:52-54 | the index of the first marker line: no earlier line is a marker |
| FrontMatter.SplitSpec | nodes.py:44-57 | line 0 is dropped; the front matter holds no marker; with a closing marker, the lines are line 0, front matter, marker and body, verbatim; without one, everything after line 0 is front matter |
| FrontMatter.ReadRenderableFile | nodes.py:44-57 | the scan loop returns the concatenated front matter and body of `SplitSpec`; the older copy at main.py:128-142 is the same code |
| FrontMatter.ReadRenderableDoctest | nodes.py:33-42 | the doctest: front matter `title: hello\n`, body `content\n` |
| FrontMatter.LaterMarkerStaysInBody | nodes.py:52-55 | a third marker line stays in the body verbatim |
| FrontMatter.NoClosingMarker | nodes.py:47-55 | without a closing marker the body is empty and everything after line 0 is front matter |
| Paths.LastDot | nodes.py:356-357 | the position of the last dot, or -1: no dot follows it |
| Paths.StemSuffix | nodes.py:356-364 | stem plus suffix is the name; a suffix is empty or a dot followed by no further dot; a non-empty name has a non-empty stem |
| Paths.RootedIsRoot | nodes.py:402-404 | the rooted form of a path is `/` exactly for the root |
| Paths.RootedInjective | nodes.py:242-243 | distinct paths have distinct rooted forms |
| Paths.ArticlePathShape | nodes.py:356-357 | an article's output path is in the same directory, keeps the stem, and has suffix `.html` |
| Paths.IndexUrlPolicy | nodes.py:394-407 | the slash is the page's own setting, else the directory's; `'index.html'` gives the rooted file path; `False` gives the directory with no slash; anything else gives a trailing slash; the root is `/` |
| Paths.IndexUrlExamples | nodes.py:394-407 | `/blog/index.html`, `/blog`, `/blog/` and `/` for the settings and fallbacks in question |
| AutoIndex.NormaliseList | nodes.py:126-129 | a list is accepted exactly when every item is a string or mapping; it keeps order and length; a rejected list names an offending item |
| AutoIndex.NormaliseSpecs | nodes.py:119-129 | a string becomes `{'layout': s}`; a mapping becomes a one-item list; a list is normalised item by item; anything else gives no specifications |
| AutoIndex.PageSize | nodes.py:133-135 | the page size is `pagenate` when it is a positive integer, else 1 |
| AutoIndex.SpecPageSize | nodes.py:133-135 | a specification's page size is at least 1 |
| AutoIndex.SpecDefaults | nodes.py:120-144 | a layout-name string means source `*`, file name `index.html`, page size 1; a specification without `layout` gets `index.html` |
| AutoIndex.CeilDivBounds | nodes.py:142 | the page count is the least multiple count covering every child, and is 0 exactly when there are no children |
| AutoIndex.PageOffset | nodes.py:137-142 | every page starts inside the children |
| AutoIndex.Buckets | nodes.py:137-145 | there are `ceil(n / p)` pages |
| AutoIndex.Paginate | nodes.py:137-145 | the loop over `range(0, len(children), p)` returns exactly `Buckets(children, p)` |
| AutoIndex.BucketsFlatten | nodes.py:137-139 | the pages concatenated give the children back, in order: nothing lost, nothing repeated |
| AutoIndex.BucketSizes | nodes.py:137-142 | each page has 1 to `p` members; all but the last have exactly `p`; page `k` is numbered `k` and knows the page count |
| AutoIndex.SevenByThree | nodes.py:137-142 | seven children at page size three make pages of 3, 3 and 1 |
| Templates.Chain | template.py:23-25 | the resolvers a lookup may visit start with the resolver itself |
| Templates.Nearest | template.py:19-25 | the position of the first resolver holding the name: none before it does |
| Templates.GetSourceNearest | template.py:18-36 | the lookup answers from the nearest resolver holding the name, at path `location/.template/name`; it fails with `TemplateNotFound` exactly when none does; the older copy at main.py:23-39 is the same code |
| Templates.OwnFolderWins | template.py:21-36 | a file in the resolver's own folder is returned, whatever the ancestors hold |
| Templates.UpToDateIffSameMtime | template.py:32-36 | the freshness check holds exactly when the modification time is unchanged |
| Tree.DirConfigOk | nodes.py:84-87 | every directory of a well-formed tree has a configuration |
| Tree.NoBgYmlInherits | nodes.py:84-87 | a directory without `.bg.yml` has its parent's configuration, and the root's is empty |
| Tree.OwnSettingWins | nodes.py:84-87 | a scalar in a directory's own `.bg.yml` is the value its configuration holds |
| Tree.StarMatchesAll | nodes.py:131 | the default pattern `*` matches every name |
| Tree.LiteralPrefix | nodes.py:209 | a pattern starting with a literal matches exactly the names with that prefix whose rest matches |
| Tree.IndexGlob | nodes.py:109 | `index.*` matches exactly the names beginning `index.` |
| Tree.Classify | nodes.py:218-233 | an asset exactly when not renderable; an index page exactly when renderable with stem `index`; an article otherwise; a renderable page holds its front matter and body |
| Tree.PagePath | nodes.py:290-427 | every page's output path lies in its directory; an auto-index page's last component is a valid file name when the rendered targets are |
| Tree.UrlInjectiveOnArticles | nodes.py:242-243 | two assets or articles with the same URL have the same output path |
| Tree.Layout | nodes.py:366-467 | an article's layout is the truthy `page.layout`, else `default.html`, and never empty; an auto-index page's is its specification's |
| Tree.PageInfo | nodes.py:298-326 | a page's info holds its rooted `path` and its `url`, over its own configuration |
| Tree.FirstCandidate | nodes.py:108-113 | the user index is the least-named `index.*` file that is `.html` or renderable; there is none exactly when no entry qualifies |
| Tree.GetChildren | nodes.py:202-211 | exactly the visible entries matching the pattern, excluding the index |
| Tree.SpecPages | nodes.py:137-145 | one auto-index page per bucket: `ceil(n / pagenate)` pages for `n` children, all in the directory |
| Tree.SpecPagesCover | nodes.py:131-145 | the pages share out the children in order; page `i` is numbered `i`, knows the page count, holds 1 to `pagenate` children and carries the target and layout |
| Tree.SpecsPagesAppend | nodes.py:115-145 | the pages of several specifications are the pages of each, in order |
| Tree.AutoIndexPages | nodes.py:115-145 | without a truthy `autoindex`, or with a user index, there are no auto-index pages; otherwise every page is an auto-index page of the directory |
| Tree.AutoIndexPagesLoop | nodes.py:115-145 | the nested loop over specifications and buckets returns exactly `AutoIndexPages` |
| Tree.SpecPagesLoop | nodes.py:131-145 | the loop over one specification's buckets returns exactly `SpecPages` |
| Tree.AutoIndexFromLayoutName | nodes.py:115-145 | `autoindex: layout.html` gives one page per child, numbered in order, named `index.html`, with that layout |
| Tree.IndexPageOf | nodes.py:147-159 | the user index when there is one; else the first auto-index page, present exactly when there are auto-index pages |
| Tree.EntryPage | nodes.py:164-181 | a hidden entry gives nothing; a visible file gives its classified page, and nothing exactly when it is a renderable `index` file; a sub-directory gives its index page |
| Tree.PagesFrom | nodes.py:173-181 | every listed page is a non-index page of the directory or a sub-directory's index page |
| Tree.Pages | nodes.py:161-181 | `pages()` yields only non-index pages of the directory and index pages of its sub-directories |
| Tree.PagesComplete | nodes.py:161-181 | every visible non-index file and every sub-directory with an index page is listed |
| Tree.ResolverOf | nodes.py:79-82 | a directory's resolver serves its `.template` folder; it falls back to the parent directory's resolver, with none at the root, as `TemplateManager` (template.py:40-47) links them |
| Tree.Ancestors | nodes.py:99-103 | the directory chain runs from the directory itself to the root |
| Tree.ChainFollowsAncestors | template.py:40-47 | the resolver chain visits the directory's ancestors, one for one |
| Tree.TemplateFromNearestAncestor | template.py:18-36 | a template is found exactly when the directory or an ancestor holds it; it comes from the nearest one that does |
| Relations.ParentPage | nodes.py:253-380 | an asset or article's parent is its directory's index page; an index-like page's is the parent directory's index page, with none at the root |
| Relations.OthersThan | nodes.py:260-262 | exactly the pages of the list with a different URL |
| Relations.Children | nodes.py:256-384 | only index-like pages have children, and every child is a listed page |
| Relations.Brothers | nodes.py:259-392 | no brother has the page's own URL; an index of the root has none; an article's brothers are exactly its directory's other pages, and an index-like page's exactly the parent directory's other pages |
| Relations.Listed | nodes.py:273-280 | exactly the pages whose URL is not ignored, in order |
| Relations.ListInfos | nodes.py:273-280 | one entry per listed page, holding that page's `url` and `path`; no entry, at any depth, repeats an ignored URL or one of its ancestors' |
| Relations.Entry | nodes.py:274-279 | one entry is a mapping with the page's `url` and `path`, and nothing nested in it repeats an ignored URL or an ancestor's |
| Relations.EntryIs | nodes.py:274-279 | an entry is the page's info overlaid with the page's own `relations_info` under the same set |
| Relations.ListInfosAreEntries | nodes.py:273-280 | the list holds, in order, one entry per listed page |
| Relations.ListInfosEntries | nodes.py:273-280 | entry `i` is listed page `i`'s info overlaid with that page's `relations_info` under the same set |
| Relations.RelationsWith | nodes.py:269-282 | the result has `children`, `brothers` and `parent`; the lists describe the un-ignored children and brothers and repeat no ignored URL at any depth; `parent` is the parent page's info or `None` |
| Relations.RelationsInfo | nodes.py:264-282 | no listed child or brother, nor anything nested in them, has an ignored URL, the page's own URL or an ancestor entry's URL |
| Relations.OverlayAvoids | nodes.py:274-279 | overlaying the relations on the info keeps the page's `url` and `path`, so the entry avoids the ignored URLs when its lists avoid them plus its own |
| Relations.RootIndexIsolated | nodes.py:376-388 | an index of the root has no brothers and no parent |
| Relations.ArticleHasNoChildren | nodes.py:253-257 | an asset or article lists no children |
| Relations.IndexChildren | nodes.py:273-384 | an index lists as children exactly its directory's pages whose URL is neither ignored nor its own |
| Converters.DefaultIsIdentity | plugin.py:10-14 | the default converter returns the content and ignores the context |
| Converters.Store | plugin.py:16-17 | registering adds exactly the lower-cased key, and keeps every key lower-case |
| Converters.Lookup | plugin.py:19-23 | a non-string suffix gets the default; a string is looked up lower-cased, with the default when it is absent |
| Converters.StoreThenLookup | plugin.py:16-23 | after a registration, any spelling with the same lower-case form finds the new converter, and every other suffix sees the table as before |
| Converters.LookupIgnoresCase | plugin.py:19-21 | a suffix and its lower-cased form find the same converter |
| Converters.UpperCaseRegistration | plugin.py:16-21 | registering `.MD` serves `.md` and `.Md` |
| Converters.ConvertersMap.constructor | plugin.py:28 | the map starts empty |
| Converters.ConvertersMap.Set | plugin.py:16-17 | `__setitem__` stores under the lower-cased suffix and keeps every key lower-case |
| Converters.ConvertersMap.Get | plugin.py:19-23 | `__getitem__` is `Lookup` on the current table |
| Converters.Plugins.constructor | plugin.py:27-28 | a fresh, empty converters map |
| Converters.Plugins.GetConverter | plugin.py:45-46 | `get_converter` is the converters map's lookup |
| Converters.Register.constructor | plugin.py:50-51 | the handle keeps the plugins object |
| Converters.Register.Converter | plugin.py:53-54 | after registration, `get_converter` on that suffix returns the converter; no other suffix's lookup changes |
| MimeRegistry.DefaultIsIdentity | register.py:9-10 | the default converter returns its content |
| MimeRegistry.Lookup | register.py:12-13 | an exact key gives its converter; any other gives the default |
| MimeRegistry.RegisterThenLookup | register.py:12-23 | after registering, the mimetype finds the new converter and every other mimetype is unaffected |
| MimeRegistry.ExactMatchOnly | register.py:12-13 | keys are not case-folded: `text/Markdown` does not serve `text/markdown` |
| MimeRegistry.ConvertersMap.constructor | register.py:16 | the module's mapping starts empty |
| MimeRegistry.ConvertersMap.Get | register.py:12-13 | `__getitem__` is `Lookup` on the current table |
| MimeRegistry.Converter | register.py:19-23 | the decorator stores the function under exactly that mimetype and returns it unchanged |
| Legacy.LoadPage | main.py:121-146 | the page is renderable exactly when `is_renderable` would say so; a renderable file gives the scanned front matter and body; any other file gives empty front matter and its raw bytes |
| Legacy.OutputNameIndex | main.py:241-243 | the output name is `index.html` exactly when the stem is `index` |
| Legacy.OutputPathIsArticlePath | main.py:231-233 | the older output path of every file is the newer article path, in the same directory |
| Legacy.AssetOutputCollides | main.py:231-233 | as written: `logo.png` is written to `logo.html`, and `a.md` and `a.png` are written to the same file |
| Legacy.FixedOutputPathKeepsAssets | main.py:231-233 | corrected: an asset keeps its own path, and one not named `.html` never collides with a page |
| Legacy.UrlAgreesWithNewerRules | main.py:235-253 | an index's URL is the newer slash policy on its output path; any other page's URL is its rooted output path |
| Legacy.ArticleUrl | main.py:252-253 | a non-index page's URL is the rooted article path |
| Legacy.FixedUrlMatchesOutput | main.py:235-253 | with the correction, every URL names the output file, except an index's under a setting other than `'index.html'` |
| Legacy.OverlayPageKeeps | main.py:148-152 | overlaying under `page` leaves every other key unchanged |
| Legacy.PageConfigFacts | main.py:148-152 | `directory_slash` is the directory's; `page` holds the output path and URL; scalar front-matter keys keep their values |
| Legacy.Layout | main.py:163-167 | the layout is `page.layout` when truthy, else `default.html`, and never empty |
| Legacy.LayoutFromFrontMatter | main.py:163-167 | a truthy front-matter layout is the page's; an empty one gives `default.html` |
| Legacy.DirOutputPath | main.py:342-348 | a directory's relative and output path is its path plus `index.html` |
| Legacy.DirUrl | main.py:235-251 | a directory's URL: `/dir/index.html` under `'index.html'`; `/dir` under `False`; `/dir/` otherwise; the bare root |
| Legacy.RootDirUrl | main.py:246-249 | the root directory's URL is `/`, or `/index.html` under `'index.html'` |
| Legacy.DirConfig | main.py:261-268 | a directory's configuration exists exactly when its `.bg.yml` is empty or a mapping |
| Legacy.DirConfigInherits | main.py:261-268 | without `.bg.yml`, `directory_slash` and `autoindex` are the parent's |
| Legacy.DirLayout | main.py:330-332 | the layout is the truthy `autoindex` value, else `index.html`, and never empty |
| Legacy.IndexPage | main.py:310-320 | the least `index.*` name in sorted order when there is one; the directory itself when `autoindex` is truthy; else nothing, each exactly |
| Legacy.IsPageIffAutoindex | main.py:322-336 | a directory is rendered exactly when `autoindex` is truthy |
| Legacy.Unignored | main.py:194-204 | exactly the URLs that are not ignored |
| Legacy.SharedDefault.constructor | main.py:180 | the default set starts empty |
| Legacy.SharedDefault.RelationsInfo | main.py:180-204 | as written: the page's URL is added to the shared set, which outlives the call, and the lists are filtered by it |
| Legacy.RenderTwice | main.py:180-210 | as written: after `/about/` is rendered, `/blog/` no longer lists it as a brother |
| Legacy.FixedListsEveryOther | main.py:180-204 | corrected: with no set given, every child and brother other than the page itself is listed |
| Legacy.FixedRenderTwice | main.py:180-210 | corrected: `/about/` and `/blog/` each list the other |

## Left out

- YAML parsing: parsed `.bg.yml` documents are an input of the tree, and
  front matter is parsed by a function the `Site` carries.
- Jinja rendering: `render`, `rendering_context`, `contents()`,
  `Page.template` and the template environments of nodes.py and main.py.
  The name of an auto-index file (`fname`) is a function the `Site`
  carries.
- The filesystem: reading, `shutil` copies, `mkdir`, modification times as
  values, and `str(path.resolve())` for template file names. A template's
  file name is its path below the root.
- Text-mode newline translation: files are modelled with `\n` line ends.
- Mimetypes: `Page.type` (main.py:157-161) and `mimetype` /
  `guess_mimetype` (register.py:26-31) call the system's `mimetypes` table.
- `Plugins.__init__` (plugin.py:30-43) imports plugin modules dynamically;
  the `plugins/` directory, `utils.py`, `watch.py` and main.py's script
  entry point (main.py:351-370) are outside this model.
- Tree walking: `walk`, `get_child`, `__iter__` (nodes.py:161-200) and main.py's
  `child_pages`, `walk` and `__iter__` (main.py:282-308) are modelled only
  through the listing a directory yields (`Tree.Pages`). Entry order is the
  order of the directory's entries.
- `Tree.GlobMatch` supports `*` and `?` only; character classes and
  patterns across directories are left out.
- `Values.Lower` lower-cases ASCII only; Python's full Unicode case mapping
  is left out.
- Dictionaries are maps, so insertion order is not modelled.
- `math.ceil(len / p)` is computed exactly, with no floating-point rounding.
- `Tree.Valid`: a configuration that the source would crash on is excluded,
  for example an `autoindex` list holding a number. Front matter that is not
  a mapping is excluded for the same reason.
- A sub-directory named `index.*` is excluded by `Tree.EntryLinked` (and so
  by `Tree.Valid`): `_user_index_page` (nodes.py:108-113) would try to open
  it as a file.
- `Tree.NamesOk` (part of `Tree.Valid`): a rendered auto-index `target`
  is taken to be one path component. A target that renders to a name with
  `/` (nodes.py:423-427 joins it below the directory, making
  sub-directories), or to `""`, `.` or `..`, is not modelled.
- Configuration.NewConfig: with no parent, a document that is a list or a
  string is stored as it is (config.py:40-42) and fails only at the first
  lookup or merge; the model reports the error when the configuration is
  built.
- `Values.Value` has no floating-point numbers, so a `pagenate` such as
  `2.5` (which nodes.py:134 turns into 1) or a float `autoindex` cannot be
  written.
- main.py's `page_info` (main.py:176-178) is the `page` entry of the page's
  configuration; it is not a separate member.
- `Config.parent` is not stored: only the merged view is kept.
- Paths in configuration are strings (`Join` with `/`), not `Path` objects.
- Legacy relations are modelled one level deep, with the children's and
  brothers' URLs as inputs. The recursion over the tree is the newer one in
  `Relations`.
- The body of `Directory.index_page` in main.py (main.py:310-320) has no
  `return` on its last branch. The value is still `None`, so this makes no
  difference.
- Legacy.Layout: requires the `page` entry to be a mapping, as the source's
  `in` test does; `Legacy.LayoutFromFrontMatter` shows `PageConfig` always
  meets it.
- Legacy.PageConfig: computes the output path and URL with the corrected
  rules of the first finding, not the as-written ones.

## Findings

| source | as written | input that shows it | evidently intended | confidence | as-written member | corrected member |
|---|---|---|---|---|---|---|
| main.py:231-233 | `output_path` gives every file, renderable or not, the name `stem + '.html'` | `logo.png` is written to `logo.html`; `a.md` and `a.png` in one directory are both written to `a.html` | a file that is not renderable keeps its own path, as the later `AssetPage` does (nodes.py:290) | not executed | Legacy.AssetOutputCollides | Legacy.FixedOutputPathKeepsAssets |
| main.py:180-181 | `relations_info` adds the page's URL to its default set, which Python creates once and shares between calls | render the index pages of `/about/` and then `/blog/`: the second no longer lists `/about/` as a brother | each call copies the set first, as the later code does (nodes.py:266) | not executed | Legacy.RenderTwice | Legacy.FixedRenderTwice |
