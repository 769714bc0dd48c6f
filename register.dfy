/** The older converter registry (register.py): a module-level mapping from
    mimetypes to converters, filled by a decorator. Keys are matched exactly,
    with no lower-casing, and an unregistered mimetype gets the identity
    converter. */
module MimeRegistry {
  /** A converter of this registry takes only the content. */
  type ConverterType = string -> string

  /** `default_converter`: the content unchanged. */
  function DefaultConverter(content: string): string {
    content
  }

  lemma DefaultIsIdentity()
    ensures forall content :: DefaultConverter(content) == content
  {
  }

  /** `__getitem__` on the table's contents: exact key, or the default. */
  function Lookup(table: map<string, ConverterType>, mimetype: string): (f: ConverterType)
    ensures mimetype in table ==> f == table[mimetype]
    ensures mimetype !in table ==> f == DefaultConverter
  {
    if mimetype in table then table[mimetype] else DefaultConverter
  }

  /** Registering under a mimetype serves exactly that mimetype; lookups of
      every other mimetype are as before. */
  lemma RegisterThenLookup(table: map<string, ConverterType>, mimetype: string, f: ConverterType, other: string)
    ensures Lookup(table[mimetype := f], mimetype) == f
    ensures other != mimetype ==> Lookup(table[mimetype := f], other) == Lookup(table, other)
  {
  }

  /** There is no case folding: a converter registered for `text/Markdown`
      does not serve `text/markdown`. */
  lemma ExactMatchOnly(f: ConverterType)
    ensures Lookup(map["text/Markdown" := f], "text/markdown") == DefaultConverter
    ensures Lookup(map["text/Markdown" := f], "text/Markdown") == f
  {
    assert "text/Markdown" != "text/markdown" by {
      assert "text/Markdown"[5] != "text/markdown"[5];
    }
  }

  /** The module-level `converters` mapping. */
  class ConvertersMap {
    var table: map<string, ConverterType>

    constructor()
      ensures table == map[]
    {
      table := map[];
    }

    /** `__getitem__`. */
    function Get(mimetype: string): (f: ConverterType)
      reads this
      ensures f == Lookup(table, mimetype)
    {
      if mimetype in table then table[mimetype] else DefaultConverter
    }
  }

  /** `converter(mimetype)(fun)`: the decorator stores `fun` under exactly
      `mimetype` in the module's mapping and hands `fun` back unchanged. */
  method Converter(converters: ConvertersMap, mimetype: string, fun: ConverterType) returns (g: ConverterType)
    modifies converters
    ensures g == fun
    ensures converters.table == old(converters.table)[mimetype := fun]
    ensures converters.Get(mimetype) == fun
  {
    converters.table := converters.table[mimetype := fun];
    g := fun;
  }
}
