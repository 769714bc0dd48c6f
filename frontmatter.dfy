/** Front-matter sniffing and splitting (nodes.py:13-57; main.py:121-146 runs
    the same scan). A renderable file starts with the marker line `---`; the
    lines after it up to the next marker line are the front matter, and all
    lines after that are the body. */
module FrontMatter {
  import opened Values

  /** The marker line, newline included. */
  const Marker: string := "---\n"

  /** A line as file iteration yields it: not empty, and a newline can only
      be its last character. */
  predicate IsLine(l: string) {
    l != [] && forall j :: 0 <= j < |l| - 1 ==> l[j] != '\n'
  }

  predicate EndsWithNewline(l: string) {
    l != [] && l[|l| - 1] == '\n'
  }

  /** A line sequence file iteration can yield: every line but the last ends
      with a newline. */
  predicate WellSplit(lines: seq<string>) {
    && (forall i :: 0 <= i < |lines| ==> IsLine(lines[i]))
    && (forall i :: 0 <= i < |lines| - 1 ==> EndsWithNewline(lines[i]))
  }

  /** The lines iterating over a text file yields. */
  function SplitLines(s: string): seq<string> {
    if s == [] then []
    else
      var rest := SplitLines(s[1..]);
      if s[0] == '\n' || rest == [] then [[s[0]]] + rest
      else [[s[0]] + rest[0]] + rest[1..]
  }

  /** Splitting into lines loses nothing and yields well-formed lines. */
  lemma {:induction false} SplitLinesSound(s: string)
    ensures Concat(SplitLines(s)) == s
    ensures WellSplit(SplitLines(s))
  {
    if s != [] {
      SplitLinesSound(s[1..]);
      var rest := SplitLines(s[1..]);
      if s[0] == '\n' || rest == [] {
        assert Concat(SplitLines(s)) == [s[0]] + Concat(rest);
      } else {
        var lines := SplitLines(s);
        assert lines[1..] == rest[1..];
        assert Concat(rest) == rest[0] + Concat(rest[1..]);
        assert Concat(lines) == ([s[0]] + rest[0]) + Concat(rest[1..]);
        forall i | 0 <= i < |lines|
          ensures IsLine(lines[i])
        {
          if i > 0 {
            assert lines[i] == rest[i];
          }
        }
        forall i | 0 <= i < |lines| - 1
          ensures EndsWithNewline(lines[i])
        {
          if i > 0 {
            assert lines[i] == rest[i];
          } else {
            assert EndsWithNewline(rest[0]);
          }
        }
      }
    }
  }

  /** One line in front of any text splits off as that line. */
  lemma {:induction false} SplitLinesCons(l: string, rest: string)
    requires IsLine(l)
    requires EndsWithNewline(l) || rest == []
    ensures SplitLines(l + rest) == [l] + SplitLines(rest)
    decreases |l|
  {
    var s := l + rest;
    assert s[1..] == l[1..] + rest;
    if |l| > 1 {
      assert l[0] != '\n';
      assert IsLine(l[1..]);
      assert EndsWithNewline(l) ==> EndsWithNewline(l[1..]);
      SplitLinesCons(l[1..], rest);
      var r := SplitLines(s[1..]);
      assert r == [l[1..]] + SplitLines(rest);
      assert SplitLines(s) == [[s[0]] + r[0]] + r[1..];
      assert [l[0]] + l[1..] == l;
    } else {
      assert l == [s[0]] && s[1..] == rest;
      assert s[0] == '\n' || SplitLines(rest) == [];
    }
  }

  /** Splitting is the inverse of joining, on well-formed line sequences. */
  lemma {:induction false} SplitLinesConcat(lines: seq<string>)
    requires WellSplit(lines)
    ensures SplitLines(Concat(lines)) == lines
  {
    if lines != [] {
      assert WellSplit(lines[1..]) by {
        forall i | 0 <= i < |lines[1..]|
          ensures IsLine(lines[1..][i])
        {
          assert lines[1..][i] == lines[i + 1];
        }
      }
      SplitLinesConcat(lines[1..]);
      SplitLinesCons(lines[0], Concat(lines[1..]));
    }
  }

  /** `file_.read(4)` on a text. */
  function Read(text: string, n: nat): string {
    if |text| <= n then text else text[..n]
  }

  /** `is_renderable`: the first four characters are the marker. `text` is
      `None` when the file cannot be read as text, which counts as not
      renderable. */
  predicate IsRenderable(text: Option<string>) {
    text.Some? && Read(text.value, 4) == Marker
  }

  /** Sniffing the first four characters agrees with the line structure: a
      file is renderable exactly when its first line is the marker. */
  lemma RenderableIffFirstLine(text: string)
    ensures IsRenderable(Some(text)) <==> SplitLines(text) != [] && SplitLines(text)[0] == Marker
  {
    var lines := SplitLines(text);
    if IsRenderable(Some(text)) {
      assert text == Marker + text[4..];
      SplitLinesCons(Marker, text[4..]);
    }
    if lines != [] && lines[0] == Marker {
      SplitLinesSound(text);
      assert Concat(lines) == Marker + Concat(lines[1..]);
      assert text[..4] == Marker;
    }
  }

  /** The `is_renderable` doctests. */
  lemma IsRenderableDoctests()
    ensures IsRenderable(Some("---\ntitle: hello\n---\ncontent\n"))
    ensures !IsRenderable(Some("content\n"))
    ensures !IsRenderable(None)
  {
    assert "---\ntitle: hello\n---\ncontent\n"[..4] == Marker;
    assert "content\n"[..4] == "cont";
  }

  /** Index of the first marker line, or `|lines|` when there is none. */
  function FirstMarker(lines: seq<string>): (i: nat)
    ensures i <= |lines|
    ensures i < |lines| ==> lines[i] == Marker
    ensures forall j :: 0 <= j < i ==> lines[j] != Marker
  {
    if lines == [] then 0
    else if lines[0] == Marker then 0
    else 1 + FirstMarker(lines[1..])
  }

  /** The lines of the front matter and of the body. */
  datatype Split = Split(header: seq<string>, body: seq<string>)

  /** What the scan of `read_renderable_file` collects. Line 0 is dropped;
      the header holds no marker line; with a marker after line 0, the lines
      are line 0, the header, that marker and the body, verbatim; without
      one, everything after line 0 is header and the body is empty. */
  function SplitSpec(lines: seq<string>): (r: Split)
    ensures lines == [] ==> r == Split([], [])
    ensures Marker !in r.header
    ensures lines != [] && Marker in lines[1..] ==> lines == [lines[0]] + r.header + [Marker] + r.body
    ensures lines != [] && Marker !in lines[1..] ==> lines == [lines[0]] + r.header && r.body == []
  {
    if lines == [] then Split([], [])
    else
      var rest := lines[1..];
      var i := FirstMarker(rest);
      if i < |rest| then
        assert lines == [lines[0]] + rest[..i] + [Marker] + rest[i + 1..];
        Split(rest[..i], rest[i + 1..])
      else
        assert lines == [lines[0]] + rest;
        Split(rest, [])
  }

  /** `read_renderable_file`: scans the lines once, dropping line 0 and
      switching from the header to the body at the first marker line after
      it; later marker lines stay in the body. Returns the header text (the
      YAML document of the front matter) and the body text. */
  method ReadRenderableFile(text: string) returns (header: string, content: string)
    ensures header == Concat(SplitSpec(SplitLines(text)).header)
    ensures content == Concat(SplitSpec(SplitLines(text)).body)
  {
    var lines := SplitLines(text);
    var headers: seq<string> := [];
    var contents: seq<string> := [];
    var inBody := false;
    ghost var switched := 0;
    for i := 0 to |lines|
      invariant !inBody ==> headers == (if i == 0 then [] else lines[1..i]) && contents == []
      invariant !inBody ==> forall j :: 1 <= j < i ==> lines[j] != Marker
      invariant inBody ==> 1 <= switched < i && lines[switched] == Marker
      invariant inBody ==> forall j :: 1 <= j < switched ==> lines[j] != Marker
      invariant inBody ==> headers == lines[1..switched] && contents == lines[switched + 1..i]
    {
      if i == 0 {
      } else if lines[i] == Marker && !inBody {
        inBody := true;
        switched := i;
      } else if inBody {
        contents := contents + [lines[i]];
      } else {
        headers := headers + [lines[i]];
      }
    }
    if lines != [] {
      var rest := lines[1..];
      var f := FirstMarker(rest);
      if inBody {
        assert rest[switched - 1] == Marker;
        assert f == switched - 1;
        assert headers == rest[..f];
        assert contents == rest[f + 1..];
      } else {
        assert forall j :: 0 <= j < |rest| ==> rest[j] == lines[j + 1];
        assert f == |rest|;
        assert headers == rest;
      }
    }
    header := Concat(headers);
    content := Concat(contents);
  }

  /** A newline-terminated line in front of a well-formed sequence keeps
      it well-formed. */
  lemma WellSplitCons(l: string, rest: seq<string>)
    requires IsLine(l) && EndsWithNewline(l) && WellSplit(rest)
    ensures WellSplit([l] + rest)
  {
    var lines := [l] + rest;
    assert forall i :: 1 <= i < |lines| ==> lines[i] == rest[i - 1];
  }

  /** The lines of the `read_renderable_file` doctest text. */
  lemma DoctestLines(text: string)
    requires text == "---\ntitle: hello\n---\ncontent\n"
    ensures SplitLines(text) == [Marker, "title: hello\n", Marker, "content\n"]
  {
    var lines := [Marker, "title: hello\n", Marker, "content\n"];
    DoctestConcat(lines);
    DoctestWellSplit(lines);
    SplitLinesConcat(lines);
  }

  lemma DoctestConcat(lines: seq<string>)
    requires lines == [Marker, "title: hello\n", Marker, "content\n"]
    ensures Concat(lines) == "---\ntitle: hello\n---\ncontent\n"
  {
    assert Concat(lines[3..]) == "content\n";
    assert Concat(lines[2..]) == "---\ncontent\n";
    assert Concat(lines[1..]) == "title: hello\n---\ncontent\n";
  }

  lemma DoctestWellSplit(lines: seq<string>)
    requires lines == [Marker, "title: hello\n", Marker, "content\n"]
    ensures WellSplit(lines)
  {
    assert WellSplit(["content\n"]);
    WellSplitCons(Marker, ["content\n"]);
    assert IsLine("title: hello\n");
    WellSplitCons("title: hello\n", [Marker, "content\n"]);
    WellSplitCons(Marker, ["title: hello\n", Marker, "content\n"]);
  }

  /** The `read_renderable_file` doctest: header `title: hello`, body
      `content`. */
  lemma ReadRenderableDoctest(text: string)
    requires text == "---\ntitle: hello\n---\ncontent\n"
    ensures var s := SplitSpec(SplitLines(text));
            Concat(s.header) == "title: hello\n" && Concat(s.body) == "content\n"
  {
    DoctestLines(text);
    var lines := [Marker, "title: hello\n", Marker, "content\n"];
    assert lines[1..] == ["title: hello\n", Marker, "content\n"];
    assert FirstMarker(lines[1..]) == 1;
  }

  /** The lines of a text with a marker line inside its body. */
  lemma LaterMarkerLines(text: string)
    requires text == "---\na\n---\nb\n---\nc\n"
    ensures SplitLines(text) == [Marker, "a\n", Marker, "b\n", Marker, "c\n"]
  {
    var lines := [Marker, "a\n", Marker, "b\n", Marker, "c\n"];
    LaterMarkerConcat(lines);
    LaterMarkerWellSplit(lines);
    SplitLinesConcat(lines);
  }

  lemma LaterMarkerConcat(lines: seq<string>)
    requires lines == [Marker, "a\n", Marker, "b\n", Marker, "c\n"]
    ensures Concat(lines) == "---\na\n---\nb\n---\nc\n"
  {
    assert Concat(lines[5..]) == "c\n";
    assert Concat(lines[4..]) == "---\nc\n";
    assert Concat(lines[3..]) == "b\n---\nc\n";
    assert Concat(lines[2..]) == "---\nb\n---\nc\n";
    assert Concat(lines[1..]) == "a\n---\nb\n---\nc\n";
  }

  lemma LaterMarkerWellSplit(lines: seq<string>)
    requires lines == [Marker, "a\n", Marker, "b\n", Marker, "c\n"]
    ensures WellSplit(lines)
  {
    assert WellSplit(["c\n"]);
    WellSplitCons(Marker, ["c\n"]);
    WellSplitCons("b\n", [Marker, "c\n"]);
    WellSplitCons(Marker, ["b\n", Marker, "c\n"]);
    WellSplitCons("a\n", [Marker, "b\n", Marker, "c\n"]);
    WellSplitCons(Marker, ["a\n", Marker, "b\n", Marker, "c\n"]);
  }

  /** The split of those lines: the second marker closes the front matter,
      the third is a body line. */
  lemma LaterMarkerSplit(lines: seq<string>)
    requires lines == [Marker, "a\n", Marker, "b\n", Marker, "c\n"]
    ensures Concat(SplitSpec(lines).header) == "a\n"
    ensures Concat(SplitSpec(lines).body) == "b\n---\nc\n"
  {
    var rest := ["a\n", Marker, "b\n", Marker, "c\n"];
    assert lines[1..] == rest;
    assert rest[1..] == [Marker, "b\n", Marker, "c\n"];
    assert FirstMarker(rest) == 1;
    var body := ["b\n", Marker, "c\n"];
    assert rest[..1] == ["a\n"] && rest[2..] == body;
    assert Concat(body[2..]) == "c\n";
    assert Concat(body[1..]) == "---\nc\n";
  }

  /** A marker line inside the body is kept verbatim, not taken as a second
      delimiter. */
  lemma LaterMarkerStaysInBody(text: string)
    requires text == "---\na\n---\nb\n---\nc\n"
    ensures var s := SplitSpec(SplitLines(text));
            Concat(s.header) == "a\n" && Concat(s.body) == "b\n---\nc\n"
  {
    LaterMarkerLines(text);
    LaterMarkerSplit(SplitLines(text));
  }

  /** Without a closing marker every line after the first is front matter
      and the body is empty. */
  lemma NoClosingMarker(text: string)
    requires text == "---\ntitle: x\n"
    ensures var s := SplitSpec(SplitLines(text));
            Concat(s.header) == "title: x\n" && s.body == []
  {
    var lines := [Marker, "title: x\n"];
    assert Concat(lines[1..]) == "title: x\n";
    assert Concat(lines) == "---\ntitle: x\n";
    assert WellSplit(lines);
    SplitLinesConcat(lines);
    assert lines[1..] == ["title: x\n"];
  }
}
