/** Template lookup (template.py:6-55): a resolver looks a template name up in
    its own directory's `.template` folder and otherwise asks its parent
    resolver, ending in `TemplateNotFound`. */
module Templates {
  import opened Values
  import opened Paths

  /** A file under `.template`: its text and its modification time. */
  datatype TemplateFile = TemplateFile(source: string, mtime: int)

  /** A `Resolver`: the directory it serves, the files of that directory's
      `.template` folder, and the resolver it falls back to. */
  datatype Resolver = Resolver(location: Path, templates: map<string, TemplateFile>, parent: Option<Resolver>)

  /** What `get_source` returns: the source text, the file it was read from,
      and the modification time captured with it. */
  datatype Loaded = Loaded(source: string, filename: Path, mtime: int)

  datatype NotFound = TemplateNotFound(name: string)

  /** The template loaded from one resolver's own folder. */
  function LoadFrom(r: Resolver, name: string): Loaded
    requires name in r.templates
  {
    Loaded(r.templates[name].source, r.location + [".template", name], r.templates[name].mtime)
  }

  /** `get_source`: the resolver's own file if it exists, else the parent's
      answer, else `TemplateNotFound`. */
  function GetSource(r: Resolver, name: string): Result<Loaded, NotFound> {
    if name in r.templates then Ok(LoadFrom(r, name))
    else if r.parent.Some? then GetSource(r.parent.value, name)
    else Err(TemplateNotFound(name))
  }

  /** The freshness check `get_source` hands back: the file is up to date
      when its current modification time equals the one captured. */
  predicate UpToDate(l: Loaded, currentMtime: int) {
    currentMtime == l.mtime
  }

  /** The resolvers a lookup may visit, nearest first. */
  function Chain(r: Resolver): (c: seq<Resolver>)
    ensures |c| >= 1 && c[0] == r
  {
    if r.parent.None? then [r] else [r] + Chain(r.parent.value)
  }

  /** The position of the first resolver in `chain` that holds `name`. */
  function Nearest(chain: seq<Resolver>, name: string): (i: nat)
    ensures i <= |chain|
    ensures i < |chain| ==> name in chain[i].templates
    ensures forall j :: 0 <= j < i ==> name !in chain[j].templates
  {
    if chain == [] then 0
    else if name in chain[0].templates then 0
    else 1 + Nearest(chain[1..], name)
  }

  /** The lookup answers from the nearest resolver in the chain that holds
      the name, and fails with `TemplateNotFound(name)` exactly when none
      does. */
  lemma {:induction false} GetSourceNearest(r: Resolver, name: string)
    ensures var c := Chain(r);
            var i := Nearest(c, name);
            && (i < |c| ==> GetSource(r, name) == Ok(LoadFrom(c[i], name)))
            && (i == |c| <==> GetSource(r, name) == Err(TemplateNotFound(name)))
  {
    var c := Chain(r);
    if name !in r.templates && r.parent.Some? {
      GetSourceNearest(r.parent.value, name);
      assert c[1..] == Chain(r.parent.value);
    }
  }

  /** A file placed in the resolver's own folder is the one returned,
      whatever the ancestors hold under the same name. */
  lemma OwnFolderWins(r: Resolver, name: string, f: TemplateFile)
    ensures GetSource(r.(templates := r.templates[name := f]), name)
         == Ok(Loaded(f.source, r.location + [".template", name], f.mtime))
  {
  }

  /** The up-to-date check of a loaded template holds exactly when the file
      still has the modification time of the resolver that supplied it. */
  lemma UpToDateIffSameMtime(r: Resolver, name: string, now: int)
    requires GetSource(r, name).Ok?
    ensures var c := Chain(r);
            var i := Nearest(c, name);
            i < |c| && (UpToDate(GetSource(r, name).value, now) <==> now == c[i].templates[name].mtime)
  {
    GetSourceNearest(r, name);
  }
}
