/** The converter registry of the plugin system (plugin.py): a mapping from
    file suffixes to converter functions whose keys are stored and looked up
    lower-cased, with an identity converter for every suffix nobody
    registered. */
module Converters {
  import opened Values

  /** A converter turns a page's content, given its rendering context, into
      HTML. */
  type ConverterType = (string, Mapping) -> string

  /** `default_converter`: the content, whatever the context. */
  function DefaultConverter(content: string, context: Mapping): string {
    content
  }

  /** The default converter is the identity on contents and ignores its
      context. */
  lemma DefaultIsIdentity()
    ensures forall content, context :: DefaultConverter(content, context) == content
    ensures forall content, c1, c2 :: DefaultConverter(content, c1) == DefaultConverter(content, c2)
  {
  }

  /** The key a suffix is stored under. */
  function Key(suffix: string): string {
    Lower(suffix)
  }

  /** Every key of a table filled through `__setitem__` is lower-case. */
  predicate Normalised(table: map<string, ConverterType>) {
    forall k :: k in table ==> Lower(k) == k
  }

  /** `__setitem__` on the table's contents. */
  function Store(table: map<string, ConverterType>, suffix: string, f: ConverterType): (r: map<string, ConverterType>)
    ensures r.Keys == table.Keys + {Key(suffix)}
    ensures Normalised(table) ==> Normalised(r)
  {
    LowerIdempotent(suffix);
    table[Key(suffix) := f]
  }

  /** `__getitem__` on the table's contents: a string suffix is looked up
      lower-cased, falling back to the default; anything that is not a
      string, here `None`, gets the default. */
  function Lookup(table: map<string, ConverterType>, suffix: Option<string>): (f: ConverterType)
    ensures suffix.None? ==> f == DefaultConverter
    ensures suffix.Some? && Key(suffix.value) !in table ==> f == DefaultConverter
    ensures suffix.Some? && Key(suffix.value) in table ==> f == table[Key(suffix.value)]
  {
    match suffix
    case None => DefaultConverter
    case Some(s) => if Key(s) in table then table[Key(s)] else DefaultConverter
  }

  /** A suffix finds what was registered under any spelling of it that
      lower-cases to the same key; every other suffix sees the table as it
      was. */
  lemma StoreThenLookup(table: map<string, ConverterType>, suffix: string, f: ConverterType, other: string)
    ensures Lower(other) == Lower(suffix) ==> Lookup(Store(table, suffix, f), Some(other)) == f
    ensures Lower(other) != Lower(suffix) ==>
              Lookup(Store(table, suffix, f), Some(other)) == Lookup(table, Some(other))
    ensures Lookup(Store(table, suffix, f), None) == DefaultConverter
  {
  }

  /** Lookup does not depend on case: a suffix and its lower-cased form find
      the same converter. */
  lemma LookupIgnoresCase(table: map<string, ConverterType>, suffix: string)
    ensures Lookup(table, Some(suffix)) == Lookup(table, Some(Lower(suffix)))
  {
    LowerIdempotent(suffix);
  }

  /** After registering `.MD`, looking up `.md` returns that converter. */
  lemma UpperCaseRegistration(table: map<string, ConverterType>, f: ConverterType)
    ensures Lookup(Store(table, ".MD", f), Some(".md")) == f
    ensures Lookup(Store(table, ".MD", f), Some(".Md")) == f
  {
    assert Lower(".MD") == ".md";
    assert Lower(".md") == ".md";
    assert Lower(".Md") == ".md";
  }

  /** `ConvertersMap`: the table, updated in place by `__setitem__`. */
  class ConvertersMap {
    var table: map<string, ConverterType>

    predicate Valid()
      reads this
    {
      Normalised(table)
    }

    constructor()
      ensures table == map[] && Valid()
    {
      table := map[];
    }

    /** `__setitem__`: stores under the lower-cased suffix. */
    method Set(suffix: string, converter: ConverterType)
      modifies this
      ensures table == Store(old(table), suffix, converter)
      ensures old(Valid()) ==> Valid()
      ensures Key(suffix) in table && table[Key(suffix)] == converter
    {
      table := Store(table, suffix, converter);
    }

    /** `__getitem__`. */
    function Get(suffix: Option<string>): (f: ConverterType)
      reads this
      ensures f == Lookup(table, suffix)
    {
      match suffix
      case None => DefaultConverter
      case Some(s) => if Lower(s) in table then table[Lower(s)] else DefaultConverter
    }
  }

  /** `Plugins`: owns the converters map that plugins register into. */
  class Plugins {
    var converters: ConvertersMap

    constructor()
      ensures fresh(converters) && converters.table == map[] && converters.Valid()
    {
      converters := new ConvertersMap();
    }

    /** `get_converter`: the converters map's lookup. */
    function GetConverter(suffix: Option<string>): (f: ConverterType)
      reads this, converters
      ensures f == Lookup(converters.table, suffix)
    {
      converters.Get(suffix)
    }
  }

  /** `Register`: the handle a plugin's `init` receives. */
  class Register {
    const plugins: Plugins

    constructor(plugins: Plugins)
      ensures this.plugins == plugins
    {
      this.plugins := plugins;
    }

    /** `converter(suffix, converter)`: registers into the plugins' map, so
        `get_converter` on the same suffix, in any case, returns it, and no
        other suffix's converter changes. */
    method Converter(suffix: string, converter: ConverterType)
      modifies plugins.converters
      ensures plugins.converters.table == Store(old(plugins.converters.table), suffix, converter)
      ensures old(plugins.converters.Valid()) ==> plugins.converters.Valid()
      ensures plugins.GetConverter(Some(suffix)) == converter
      ensures forall s :: Key(s) != Key(suffix) ==>
                plugins.GetConverter(Some(s)) == old(plugins.GetConverter(Some(s)))
    {
      plugins.converters.Set(suffix, converter);
    }
  }
}
