/** Paths relative to the site root and the URLs derived from them
    (nodes.py:242-243, 290, 356-357, 394-407). A path is the sequence of its
    components; the root itself is the empty sequence, pathlib's `.`. */
module Paths {
  import opened Values

  type Path = seq<string>

  /** A component: not empty, no separator and not `.` or `..`. */
  predicate ValidName(n: string) {
    n != "" && '/' !in n && n != "." && n != ".."
  }

  predicate ValidPath(p: Path) {
    forall i :: 0 <= i < |p| ==> ValidName(p[i])
  }

  /** pathlib's `parent`: the root is its own parent. */
  function ParentOf(p: Path): Path {
    if p == [] then [] else p[..|p| - 1]
  }

  /** `name.rfind('.')`, -1 when there is no dot. */
  function LastDot(name: string): (i: int)
    ensures -1 <= i < |name|
    ensures i >= 0 ==> name[i] == '.'
    ensures forall j :: i < j < |name| ==> name[j] != '.'
  {
    if name == [] then -1
    else if name[|name| - 1] == '.' then |name| - 1
    else LastDot(name[..|name| - 1])
  }

  /** pathlib's `suffix`: from the last dot on, unless that dot starts or
      ends the name. */
  function Suffix(name: string): string {
    var i := LastDot(name);
    if 0 < i < |name| - 1 then name[i..] else ""
  }

  /** pathlib's `stem`: the name without its suffix. */
  function Stem(name: string): string {
    var i := LastDot(name);
    if 0 < i < |name| - 1 then name[..i] else name
  }

  /** A name is its stem followed by its suffix; a suffix is empty or one
      dot followed by at least one character that is not a dot; a non-empty
      name has a non-empty stem. */
  lemma StemSuffix(name: string)
    ensures Stem(name) + Suffix(name) == name
    ensures Suffix(name) == "" || (|Suffix(name)| >= 2 && Suffix(name)[0] == '.' && '.' !in Suffix(name)[1..])
    ensures name != "" ==> Stem(name) != ""
  {
    var i := LastDot(name);
    if 0 < i < |name| - 1 {
      assert name[..i] + name[i..] == name;
      forall j | 0 <= j < |name[i..][1..]|
        ensures name[i..][1..][j] != '.'
      {
        assert name[i..][1..][j] == name[i + 1 + j];
      }
    }
  }

  /** `('/' / p).as_posix()`: the path below the root, with a leading slash. */
  function Rooted(p: Path): string {
    "/" + Join(p, "/")
  }

  /** The only path whose rooted form is `/` is the root. */
  lemma RootedIsRoot(p: Path)
    requires ValidPath(p)
    ensures Rooted(p) == "/" <==> p == []
  {
    if p != [] {
      assert p[0] != "";
      if |p| == 1 {
        assert Join(p, "/") == p[0];
      } else {
        assert Join(p, "/") == p[0] + "/" + Join(p[1..], "/");
      }
    }
  }

  /** Splitting at the first separator is unambiguous. */
  lemma FirstSeparator(a: string, b: string, c: string, d: string)
    requires '/' !in a && '/' !in c
    requires a + "/" + b == c + "/" + d
    ensures a == c && b == d
  {
    var s := a + "/" + b;
    assert |a| == |c| by {
      assert forall j :: 0 <= j < |a| ==> s[j] == a[j];
      assert forall j :: 0 <= j < |c| ==> s[j] == c[j];
      assert s[|a|] == '/' && s[|c|] == '/';
    }
    assert a == s[..|a|] == c;
    assert b == s[|a| + 1..] == d;
  }

  /** A component is not a path of several components joined. */
  lemma JoinOneInMany(n: string, p: Path)
    requires ValidName(n) && ValidPath(p) && |p| > 1
    ensures n != Join(p, "/")
  {
    var s := Join(p, "/");
    assert s == p[0] + "/" + Join(p[1..], "/");
    assert s[|p[0]|] == '/';
  }

  /** Joining components with `/` loses nothing: two paths with the same
      rooted form are the same path. This is what lets URLs stand for pages
      when `brothers` and `relations_info` compare them. */
  lemma {:induction false} RootedInjective(p: Path, q: Path)
    requires ValidPath(p) && ValidPath(q)
    requires Rooted(p) == Rooted(q)
    ensures p == q
  {
    var jp, jq := Join(p, "/"), Join(q, "/");
    assert jp == Rooted(p)[1..] && jq == Rooted(q)[1..];
    if p == [] || q == [] {
      RootedIsRoot(p);
      RootedIsRoot(q);
    } else if |p| == 1 && |q| == 1 {
    } else if |p| == 1 {
      JoinOneInMany(p[0], q);
    } else if |q| == 1 {
      JoinOneInMany(q[0], p);
    } else {
      FirstSeparator(p[0], Join(p[1..], "/"), q[0], Join(q[1..], "/"));
      assert ValidPath(p[1..]) && ValidPath(q[1..]) by {
        assert forall i :: 0 <= i < |p[1..]| ==> p[1..][i] == p[i + 1];
        assert forall i :: 0 <= i < |q[1..]| ==> q[1..][i] == q[i + 1];
      }
      RootedInjective(p[1..], q[1..]);
      assert p == [p[0]] + p[1..] && q == [q[0]] + q[1..];
    }
  }

  /** `ArticlePage.path`: the source's parent followed by its stem plus
      `.html`. */
  function ArticlePath(rel: Path): Path
    requires rel != []
  {
    ParentOf(rel) + [Stem(rel[|rel| - 1]) + ".html"]
  }

  /** The output path of an article stays in the source's directory, keeps
      the source's stem and has the suffix `.html`. */
  lemma ArticlePathShape(rel: Path)
    requires rel != [] && ValidPath(rel)
    ensures var out := ArticlePath(rel);
            && ParentOf(out) == ParentOf(rel)
            && Stem(out[|out| - 1]) == Stem(rel[|rel| - 1])
            && Suffix(out[|out| - 1]) == ".html"
            && ValidPath(out)
  {
    var stem := Stem(rel[|rel| - 1]);
    StemOfValidName(rel[|rel| - 1]);
    HtmlName(stem);
    var out := ArticlePath(rel);
    assert out[..|out| - 1] == ParentOf(rel);
    assert forall i :: 0 <= i < |ParentOf(rel)| ==> ParentOf(rel)[i] == rel[i];
  }

  /** The stem of a component is a non-empty string without separators. */
  lemma StemOfValidName(name: string)
    requires ValidName(name)
    ensures Stem(name) != "" && '/' !in Stem(name)
  {
    StemSuffix(name);
    var stem := Stem(name);
    forall j | 0 <= j < |stem|
      ensures stem[j] != '/'
    {
      assert stem[j] == (stem + Suffix(name))[j];
    }
  }

  /** `stem.html` is a component with stem `stem` and suffix `.html`. */
  lemma HtmlName(stem: string)
    requires stem != "" && '/' !in stem
    ensures Stem(stem + ".html") == stem
    ensures Suffix(stem + ".html") == ".html"
    ensures ValidName(stem + ".html")
  {
    var n := stem + ".html";
    HtmlLastDot(stem);
    assert n[..|stem|] == stem;
    assert n[|stem|..] == ".html";
    forall j | 0 <= j < |n|
      ensures n[j] != '/'
    {
      if j < |stem| {
        assert n[j] == stem[j];
      } else {
        assert n[j] == ".html"[j - |stem|];
      }
    }
  }

  /** The last dot of `stem.html` is the one before `html`. */
  lemma HtmlLastDot(stem: string)
    ensures LastDot(stem + ".html") == |stem|
  {
    var n0, n1, n2, n3, n4 := stem + ".", stem + ".h", stem + ".ht", stem + ".htm", stem + ".html";
    assert n0[|n0| - 1] == '.';
    assert LastDot(n0) == |stem|;
    assert n1[..|n1| - 1] == n0 && n1[|n1| - 1] == 'h';
    assert LastDot(n1) == |stem|;
    assert n2[..|n2| - 1] == n1 && n2[|n2| - 1] == 't';
    assert LastDot(n2) == |stem|;
    assert n3[..|n3| - 1] == n2 && n3[|n3| - 1] == 'm';
    assert LastDot(n3) == |stem|;
    assert n4[..|n4| - 1] == n3 && n4[|n4| - 1] == 'l';
  }

  /** `IndexPageMixIn.url()`: the `directory_slash` setting is the page's own
      (`own`), or the directory's (`inherited`) when the page's is `None`.
      The string `index.html` keeps the file name; `False` gives the
      directory with no trailing slash; anything else gives the directory
      with a trailing slash, the root being just `/`. */
  function IndexUrl(path: Path, own: Value, inherited: Value): string
    requires path != []
  {
    var slash := if own.Null? then inherited else own;
    if slash == Str("index.html") then "/" + Join(path, "/")
    else
      var dir := Rooted(ParentOf(path));
      if slash != Bool(false) && dir != "/" then dir + "/" else dir
  }

  /** The three-way slash policy, stated outright. */
  lemma IndexUrlPolicy(path: Path, own: Value, inherited: Value)
    requires path != [] && ValidPath(path)
    ensures var slash := if own.Null? then inherited else own;
            var r := IndexUrl(path, own, inherited);
            && (slash == Str("index.html") ==> r == Rooted(path))
            && (slash == Bool(false) ==> r == Rooted(ParentOf(path)))
            && (slash != Str("index.html") && slash != Bool(false) && ParentOf(path) != [] ==>
                  r == Rooted(ParentOf(path)) + "/")
            && (slash != Str("index.html") && ParentOf(path) == [] ==> r == "/")
  {
    assert ValidPath(ParentOf(path)) by {
      assert forall i :: 0 <= i < |ParentOf(path)| ==> ParentOf(path)[i] == path[i];
    }
    RootedIsRoot(ParentOf(path));
  }

  /** The directory-slash examples for a directory `blog` holding an index,
      and for the root. */
  lemma IndexUrlExamples()
    ensures IndexUrl(["blog", "index.html"], Str("index.html"), Null) == "/blog/index.html"
    ensures IndexUrl(["blog", "index.html"], Bool(false), Null) == "/blog"
    ensures IndexUrl(["blog", "index.html"], Null, Null) == "/blog/"
    ensures IndexUrl(["blog", "index.html"], Null, Bool(false)) == "/blog"
    ensures IndexUrl(["blog", "index.html"], Bool(true), Bool(false)) == "/blog/"
    ensures IndexUrl(["index.html"], Null, Null) == "/"
    ensures IndexUrl(["index.html"], Bool(false), Null) == "/"
  {
    assert Join(["blog", "index.html"], "/") == "blog/index.html";
    assert Join(["blog"], "/") == "blog";
    assert ParentOf(["blog", "index.html"]) == ["blog"];
    assert ParentOf(["index.html"]) == [];
  }
}
