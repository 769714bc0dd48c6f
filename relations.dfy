/** Page relations (nodes.py:253-282, 375-392): the parent page, children and
    brothers of a page, and `relations_info`, which lists children and
    brothers with their own relations, skipping every URL already on the
    path so that the recursion ends. */
module Relations {
  import opened Values
  import opened Paths
  import Configuration
  import opened Tree

  /** `parent_page()`: an asset's or article's parent page is its own
      directory's index page; an index-like page's is the parent directory's
      index page, and there is none at the root. */
  function ParentPage(site: Site, p: Page): (r: Option<Page>)
    requires Valid(site) && p.dir < |site.dirs|
    ensures r.Some? ==> r.value.dir < |site.dirs|
    ensures !IsIndexLike(p) ==> r == IndexPageOf(site, p.dir)
    ensures IsIndexLike(p) && site.dirs[p.dir].parent.None? ==> r.None?
    ensures IsIndexLike(p) && site.dirs[p.dir].parent.Some? ==> r == IndexPageOf(site, site.dirs[p.dir].parent.value)
  {
    if IsIndexLike(p) then
      match site.dirs[p.dir].parent
      case None => None
      case Some(q) => IndexPageOf(site, q)
    else IndexPageOf(site, p.dir)
  }

  /** The URLs of every page some directory lists. */
  function Universe(site: Site): set<string>
    requires Valid(site)
  {
    set d, q | 0 <= d < |site.dirs| && q in Pages(site, d) :: Url(site, q)
  }

  lemma InUniverse(site: Site, d: nat, ps: seq<Page>)
    requires Valid(site) && d < |site.dirs|
    requires forall q :: q in ps ==> q in Pages(site, d)
    ensures forall q :: q in ps ==> q.dir < |site.dirs| && Url(site, q) in Universe(site)
  {
  }

  /** The pages of `ps` whose URL is not `u`, in order. */
  function OthersThan(site: Site, ps: seq<Page>, u: string): (r: seq<Page>)
    requires Arena(site) && DocsOk(site) && forall q :: q in ps ==> q.dir < |site.dirs|
    ensures forall q :: q in r <==> q in ps && Url(site, q) != u
  {
    if ps == [] then []
    else
      var rest := OthersThan(site, ps[1..], u);
      assert forall q :: q in ps <==> q == ps[0] || q in ps[1..];
      if Url(site, ps[0]) != u then [ps[0]] + rest else rest
  }

  /** `children()`: an index-like page's children are the pages its
      directory lists; other pages have none. */
  function Children(site: Site, p: Page): (r: seq<Page>)
    requires Valid(site) && p.dir < |site.dirs|
    ensures !IsIndexLike(p) ==> r == []
    ensures forall q :: q in r ==> q.dir < |site.dirs| && Url(site, q) in Universe(site)
  {
    if IsIndexLike(p) then
      InUniverse(site, p.dir, Pages(site, p.dir));
      Pages(site, p.dir)
    else []
  }

  /** `brothers()`: the pages listed beside this one, never a page with this
      page's URL. An asset's or article's brothers come from its own
      directory; an index-like page's from the parent directory, and at the
      root it has none. */
  function Brothers(site: Site, p: Page): (r: seq<Page>)
    requires Valid(site) && p.dir < |site.dirs|
    ensures forall q :: q in r ==> q.dir < |site.dirs| && Url(site, q) != Url(site, p)
    ensures forall q :: q in r ==> Url(site, q) in Universe(site)
    ensures IsIndexLike(p) && site.dirs[p.dir].parent.None? ==> r == []
    ensures !IsIndexLike(p) ==> forall q :: q in r <==> q in Pages(site, p.dir) && Url(site, q) != Url(site, p)
    ensures IsIndexLike(p) && site.dirs[p.dir].parent.Some? ==>
              forall q :: q in r <==> q in Pages(site, site.dirs[p.dir].parent.value) && Url(site, q) != Url(site, p)
  {
    var home := if IsIndexLike(p) then site.dirs[p.dir].parent else Some(p.dir);
    match home
    case None => []
    case Some(d) =>
      InUniverse(site, d, Pages(site, d));
      OthersThan(site, Pages(site, d), Url(site, p))
  }

  /** The pages of `ps` whose URL is not ignored, in order. */
  function Listed(site: Site, ps: seq<Page>, ignore: set<string>): (r: seq<Page>)
    requires Arena(site) && DocsOk(site) && forall q :: q in ps ==> q.dir < |site.dirs|
    ensures forall q :: q in r <==> q in ps && Url(site, q) !in ignore
  {
    if ps == [] then []
    else
      var rest := Listed(site, ps[1..], ignore);
      assert forall q :: q in ps <==> q == ps[0] || q in ps[1..];
      if Url(site, ps[0]) !in ignore then [ps[0]] + rest else rest
  }

  /** `vs` describes the pages `ps` one for one: each entry is a mapping
      whose `url` and `path` are that page's. */
  predicate Describes(site: Site, vs: seq<Value>, ps: seq<Page>)
    requires Arena(site) && DocsOk(site) && forall q :: q in ps ==> q.dir < |site.dirs|
  {
    && |vs| == |ps|
    && forall i :: 0 <= i < |vs| ==>
         && vs[i].Dict?
         && "url" in vs[i].fields && vs[i].fields["url"] == Str(Url(site, ps[i]))
         && "path" in vs[i].fields && vs[i].fields["path"] == Str(Rooted(PagePath(site, ps[i])))
  }

  /** An entry of a relations list, with everything nested in it, keeps
      clear of the URLs in `seen`: its own URL is not among them, and every
      entry of its `children` and `brothers` lists keeps clear of `seen`
      plus that URL. */
  predicate Avoids(v: Value, seen: set<string>)
    decreases v
  {
    && v.Dict? && "url" in v.fields && v.fields["url"].Str? && v.fields["url"].s !in seen
    && "children" in v.fields && v.fields["children"].List?
    && (forall w :: w in v.fields["children"].items ==> Avoids(w, seen + {v.fields["url"].s}))
    && "brothers" in v.fields && v.fields["brothers"].List?
    && (forall w :: w in v.fields["brothers"].items ==> Avoids(w, seen + {v.fields["url"].s}))
  }

  /** `relations_info` once its own URL is in `ignore`: the children and the
      brothers whose URL is not ignored, each as its info overlaid with its
      own relations under `ignore` plus its URL, and the parent page's info. */
  function RelationsWith(site: Site, p: Page, ignore: set<string>): (r: Mapping)
    requires Valid(site) && p.dir < |site.dirs|
    ensures r.Keys == {"children", "brothers", "parent"}
    ensures r["children"].List? && Describes(site, r["children"].items, Listed(site, Children(site, p), ignore))
    ensures r["brothers"].List? && Describes(site, r["brothers"].items, Listed(site, Brothers(site, p), ignore))
    ensures ParentPage(site, p).None? ==> r["parent"] == Null
    ensures ParentPage(site, p).Some? ==> r["parent"] == Dict(PageInfo(site, ParentPage(site, p).value).view)
    ensures forall w :: w in r["children"].items ==> Avoids(w, ignore)
    ensures forall w :: w in r["brothers"].items ==> Avoids(w, ignore)
    decreases |Universe(site) - ignore|, 1, 0
  {
    var parent := ParentPage(site, p);
    var children := ListInfos(site, Children(site, p), ignore);
    var brothers := ListInfos(site, Brothers(site, p), ignore);
    var up := if parent.Some? then Dict(PageInfo(site, parent.value).view) else Null;
    RelationsMap(children, brothers, up)
  }

  /** The mapping `relations_info` returns. */
  function RelationsMap(children: seq<Value>, brothers: seq<Value>, parent: Value): (r: Mapping)
    ensures r.Keys == {"children", "brothers", "parent"}
    ensures r["children"] == List(children) && r["brothers"] == List(brothers) && r["parent"] == parent
  {
    map["children" := List(children), "brothers" := List(brothers), "parent" := parent]
  }

  /** The list comprehension of `relations_info` over `ps`. */
  function ListInfos(site: Site, ps: seq<Page>, ignore: set<string>): (r: seq<Value>)
    requires Valid(site)
    requires forall q :: q in ps ==> q.dir < |site.dirs| && Url(site, q) in Universe(site)
    ensures Describes(site, r, Listed(site, ps, ignore))
    ensures forall v :: v in r ==> Avoids(v, ignore)
    decreases |Universe(site) - ignore|, 0, |ps|
  {
    if ps == [] then []
    else
      var q := ps[0];
      assert forall x :: x in ps[1..] ==> x in ps;
      var rest := ListInfos(site, ps[1..], ignore);
      if Url(site, q) in ignore then
        assert Listed(site, ps, ignore) == Listed(site, ps[1..], ignore);
        rest
      else
        assert Listed(site, ps, ignore) == [q] + Listed(site, ps[1..], ignore);
        var v := Entry(site, q, ignore);
        DescribesCons(site, v, q, rest, Listed(site, ps[1..], ignore));
        AvoidsCons(v, rest, ignore);
        [v] + rest
  }

  lemma AvoidsCons(v: Value, rest: seq<Value>, ignore: set<string>)
    requires Avoids(v, ignore) && forall w :: w in rest ==> Avoids(w, ignore)
    ensures forall w :: w in [v] + rest ==> Avoids(w, ignore)
  {
  }

  /** One entry of the list comprehension: the page's info overlaid with
      its relations, computed with the page's own URL ignored as well. */
  function Entry(site: Site, q: Page, ignore: set<string>): (v: Value)
    requires Valid(site) && q.dir < |site.dirs| && Url(site, q) in Universe(site) && Url(site, q) !in ignore
    ensures v.Dict? && "url" in v.fields && v.fields["url"] == Str(Url(site, q))
    ensures "path" in v.fields && v.fields["path"] == Str(Rooted(PagePath(site, q)))
    ensures Avoids(v, ignore)
    decreases |Universe(site) - ignore|, 0, 0
  {
    var u := Url(site, q);
    Shrink(Universe(site), ignore, u);
    var rel := RelationsWith(site, q, ignore + {u});
    var info := PageInfo(site, q);
    OverlayAvoids(info, rel, u, ignore);
    Dict(Configuration.Overlay(info, rel).view)
  }

  /** Ignoring one more URL of the universe leaves fewer to visit. */
  lemma Shrink(universe: set<string>, ignore: set<string>, u: string)
    requires u in universe && u !in ignore
    ensures |universe - (ignore + {u})| < |universe - ignore|
  {
    assert universe - ignore == (universe - (ignore + {u})) + {u};
  }

  /** A page's info overlaid with relations that keep clear of `ignore`
      plus the page's URL keeps clear of `ignore`, and keeps the info's
      `url` and `path`. */
  lemma OverlayAvoids(info: Configuration.Config, rel: Mapping, u: string, ignore: set<string>)
    requires "url" in info.view && info.view["url"] == Str(u) && u !in ignore && "path" in info.view
    requires rel.Keys == {"children", "brothers", "parent"}
    requires rel["children"].List? && rel["brothers"].List?
    requires forall w :: w in rel["children"].items ==> Avoids(w, ignore + {u})
    requires forall w :: w in rel["brothers"].items ==> Avoids(w, ignore + {u})
    ensures var v := Configuration.Overlay(info, rel).view;
            && "url" in v && v["url"] == info.view["url"]
            && "path" in v && v["path"] == info.view["path"]
            && Avoids(Dict(v), ignore)
  {
    Configuration.OverlayKeeps(info, rel, "url");
    Configuration.OverlayKeeps(info, rel, "path");
    Configuration.OverlayScalar(info, rel, "children");
    Configuration.OverlayScalar(info, rel, "brothers");
  }

  lemma DescribesCons(site: Site, v: Value, q: Page, vs: seq<Value>, ps: seq<Page>)
    requires Arena(site) && DocsOk(site) && q.dir < |site.dirs| && forall x :: x in ps ==> x.dir < |site.dirs|
    requires Describes(site, vs, ps)
    requires v.Dict? && "url" in v.fields && v.fields["url"] == Str(Url(site, q))
    requires "path" in v.fields && v.fields["path"] == Str(Rooted(PagePath(site, q)))
    ensures forall x :: x in [q] + ps ==> x.dir < |site.dirs|
    ensures Describes(site, [v] + vs, [q] + ps)
  {
    var ws, qs := [v] + vs, [q] + ps;
    assert forall x :: x in qs ==> x == q || x in ps;
    assert |ws| == |qs|;
    forall i | 0 <= i < |ws|
      ensures ws[i].Dict? && "url" in ws[i].fields && ws[i].fields["url"] == Str(Url(site, qs[i]))
      ensures "path" in ws[i].fields && ws[i].fields["path"] == Str(Rooted(PagePath(site, qs[i])))
    {
      if i > 0 {
        assert ws[i] == vs[i - 1] && qs[i] == ps[i - 1];
      }
    }
  }

  /** `relations_info(ignore_urls)`: it works on a copy of the caller's set
      with its own URL added, so no listed child or brother has a URL the
      caller ignores or the page's own URL. */
  function RelationsInfo(site: Site, p: Page, ignore: set<string>): (r: Mapping)
    requires Valid(site) && p.dir < |site.dirs|
    ensures r.Keys == {"children", "brothers", "parent"}
    ensures forall key :: key in {"children", "brothers"} ==>
              r[key].List? &&
              forall v :: v in r[key].items ==>
                v.Dict? && "url" in v.fields && v.fields["url"].Str? &&
                v.fields["url"].s !in ignore && v.fields["url"].s != Url(site, p)
    ensures forall v :: v in r["children"].items ==> Avoids(v, ignore + {Url(site, p)})
    ensures forall v :: v in r["brothers"].items ==> Avoids(v, ignore + {Url(site, p)})
  {
    var own := ignore + {Url(site, p)};
    var r := RelationsWith(site, p, own);
    NothingIgnoredListed(site, r["children"].items, Listed(site, Children(site, p), own), own);
    NothingIgnoredListed(site, r["brothers"].items, Listed(site, Brothers(site, p), own), own);
    r
  }

  /** Each entry of a relations list is the listed page's info overlaid
      with that page's own `relations_info`, called with the same set. */
  lemma ListInfosEntries(site: Site, ps: seq<Page>, ignore: set<string>)
    requires Valid(site)
    requires forall q :: q in ps ==> q.dir < |site.dirs| && Url(site, q) in Universe(site)
    ensures var vs := ListInfos(site, ps, ignore);
            var listed := Listed(site, ps, ignore);
            |vs| == |listed| &&
            forall i :: 0 <= i < |vs| ==>
              listed[i].dir < |site.dirs| &&
              vs[i] == Dict(Configuration.Overlay(PageInfo(site, listed[i]), RelationsInfo(site, listed[i], ignore)).view)
  {
    var vs := ListInfos(site, ps, ignore);
    var listed := Listed(site, ps, ignore);
    ListInfosAreEntries(site, ps, ignore);
    forall i | 0 <= i < |vs|
      ensures listed[i].dir < |site.dirs|
      ensures vs[i] == Dict(Configuration.Overlay(PageInfo(site, listed[i]), RelationsInfo(site, listed[i], ignore)).view)
    {
      assert listed[i] in listed;
      EntryIs(site, listed[i], ignore);
    }
  }

  /** The list comprehension yields one `Entry` per listed page. */
  lemma {:induction false} ListInfosAreEntries(site: Site, ps: seq<Page>, ignore: set<string>)
    requires Valid(site)
    requires forall q :: q in ps ==> q.dir < |site.dirs| && Url(site, q) in Universe(site)
    ensures var vs := ListInfos(site, ps, ignore);
            var listed := Listed(site, ps, ignore);
            && |vs| == |listed|
            && forall i :: 0 <= i < |vs| ==> vs[i] == Entry(site, listed[i], ignore)
    decreases |ps|
  {
    if ps != [] {
      var q := ps[0];
      assert forall x :: x in ps[1..] ==> x in ps;
      ListInfosAreEntries(site, ps[1..], ignore);
      var rest := ListInfos(site, ps[1..], ignore);
      var tail := Listed(site, ps[1..], ignore);
      if Url(site, q) !in ignore {
        var vs := [Entry(site, q, ignore)] + rest;
        var listed := [q] + tail;
        assert ListInfos(site, ps, ignore) == vs;
        assert Listed(site, ps, ignore) == listed;
        forall i | 0 <= i < |vs|
          ensures listed[i] in ps && Url(site, listed[i]) !in ignore
          ensures vs[i] == Entry(site, listed[i], ignore)
        {
          if i > 0 {
            assert tail[i - 1] in tail;
            assert vs[i] == rest[i - 1] && listed[i] == tail[i - 1];
          }
        }
      } else {
        assert ListInfos(site, ps, ignore) == rest;
        assert Listed(site, ps, ignore) == tail;
      }
    }
  }

  /** An entry is the page's info overlaid with its `relations_info`. */
  lemma EntryIs(site: Site, q: Page, ignore: set<string>)
    requires Valid(site) && q.dir < |site.dirs| && Url(site, q) in Universe(site) && Url(site, q) !in ignore
    ensures Entry(site, q, ignore) == Dict(Configuration.Overlay(PageInfo(site, q), RelationsInfo(site, q, ignore)).view)
  {
    RelationsInfoIs(site, q, ignore);
  }

  lemma RelationsInfoIs(site: Site, p: Page, ignore: set<string>)
    requires Valid(site) && p.dir < |site.dirs|
    ensures RelationsInfo(site, p, ignore) == RelationsWith(site, p, ignore + {Url(site, p)})
  {
  }

  lemma NothingIgnoredListed(site: Site, vs: seq<Value>, listed: seq<Page>, ignore: set<string>)
    requires Arena(site) && DocsOk(site) && forall q :: q in listed ==> q.dir < |site.dirs|
    requires Describes(site, vs, listed)
    requires forall q :: q in listed ==> Url(site, q) !in ignore
    ensures forall v :: v in vs ==> v.Dict? && "url" in v.fields && v.fields["url"].Str? && v.fields["url"].s !in ignore
  {
    forall v | v in vs
      ensures v.Dict? && "url" in v.fields && v.fields["url"].Str? && v.fields["url"].s !in ignore
    {
      var i :| 0 <= i < |vs| && vs[i] == v;
      assert listed[i] in listed;
    }
  }

  /** An index-like page of the root directory has no brothers and no
      parent. */
  lemma RootIndexIsolated(site: Site, p: Page, ignore: set<string>)
    requires Valid(site) && p.dir < |site.dirs|
    requires IsIndexLike(p) && p.dir == 0
    ensures Brothers(site, p) == [] && ParentPage(site, p).None?
    ensures RelationsInfo(site, p, ignore)["brothers"] == List([])
    ensures RelationsInfo(site, p, ignore)["parent"] == Null
  {
    var own := ignore + {Url(site, p)};
    assert Brothers(site, p) == [];
    assert Listed(site, [], own) == [];
    RelationsInfoIs(site, p, ignore);
    var rel := RelationsWith(site, p, own);
    assert |rel["brothers"].items| == 0;
  }

  /** An asset or article has no children, and its parent is its own
      directory's index page. */
  lemma ArticleHasNoChildren(site: Site, p: Page, ignore: set<string>)
    requires Valid(site) && p.dir < |site.dirs| && !IsIndexLike(p)
    ensures RelationsInfo(site, p, ignore)["children"] == List([])
    ensures IndexPageOf(site, p.dir).None? ==> RelationsInfo(site, p, ignore)["parent"] == Null
  {
    var own := ignore + {Url(site, p)};
    assert Listed(site, Children(site, p), own) == [];
  }

  /** An index-like page lists as children exactly its directory's pages
      whose URL is neither ignored nor its own. */
  lemma IndexChildren(site: Site, p: Page, ignore: set<string>)
    requires Valid(site) && p.dir < |site.dirs| && IsIndexLike(p)
    ensures var listed := Listed(site, Children(site, p), ignore + {Url(site, p)});
            forall q :: q in listed <==> q in Pages(site, p.dir) && Url(site, q) !in ignore && Url(site, q) != Url(site, p)
  {
  }
}
