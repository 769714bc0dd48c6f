/** JSON-like values as they appear in configuration documents and front
    matter, Python's truthiness on them, and the string helpers the rest of
    the model shares. */
module Values {

  datatype Option<+T> = None | Some(value: T)

  datatype Result<+T, +E> = Ok(value: T) | Err(error: E)

  /** A value a YAML document or a Python dict literal can hold. */
  datatype Value =
    | Null
    | Bool(b: bool)
    | Int(i: int)
    | Str(s: string)
    | List(items: seq<Value>)
    | Dict(fields: map<string, Value>)

  type Mapping = map<string, Value>

  /** Python's `bool(v)`. */
  predicate Truthy(v: Value) {
    match v
    case Null => false
    case Bool(b) => b
    case Int(i) => i != 0
    case Str(s) => s != ""
    case List(xs) => xs != []
    case Dict(m) => m != map[]
  }

  /** Python's `d.get(key, default)`. */
  function GetOr(m: Mapping, key: string, default: Value): Value {
    if key in m then m[key] else default
  }

  /** Python's `a or b` on two values. */
  function OrElse(a: Value, b: Value): Value {
    if Truthy(a) then a else b
  }

  function Concat(parts: seq<string>): string {
    if parts == [] then "" else parts[0] + Concat(parts[1..])
  }

  lemma {:induction false} ConcatAppend(a: seq<string>, b: seq<string>)
    ensures Concat(a + b) == Concat(a) + Concat(b)
  {
    if a == [] {
      assert a + b == b;
    } else {
      assert (a + b)[1..] == a[1..] + b;
      ConcatAppend(a[1..], b);
    }
  }

  function StartsWith(s: string, prefix: string): bool {
    |prefix| <= |s| && s[..|prefix|] == prefix
  }

  /** ASCII lower-casing of one character. */
  function LowerChar(c: char): char {
    if 'A' <= c <= 'Z' then (c as int + 32) as char else c
  }

  /** `str.lower()`, on the ASCII letters. */
  function Lower(s: string): (r: string)
    ensures |r| == |s|
    ensures forall i :: 0 <= i < |s| ==> r[i] == LowerChar(s[i])
  {
    if s == [] then "" else [LowerChar(s[0])] + Lower(s[1..])
  }

  /** Lower-casing twice is lower-casing once, so a key stored lower-cased is
      found again by lower-casing the query. */
  lemma LowerIdempotent(s: string)
    ensures Lower(Lower(s)) == Lower(s)
  {
  }

  /** Python's `<` on strings: code-point lexicographic order. */
  predicate Less(a: string, b: string) {
    if a == [] then b != []
    else if b == [] then false
    else if a[0] != b[0] then a[0] < b[0]
    else Less(a[1..], b[1..])
  }

  lemma {:induction false} LessIrreflexive(a: string)
    ensures !Less(a, a)
  {
    if a != [] {
      LessIrreflexive(a[1..]);
    }
  }

  lemma {:induction false} LessTransitive(a: string, b: string, c: string)
    requires Less(a, b) && Less(b, c)
    ensures Less(a, c)
  {
    if a != [] && b != [] && c != [] && a[0] == b[0] && b[0] == c[0] {
      LessTransitive(a[1..], b[1..], c[1..]);
    }
  }

  lemma {:induction false} LessTotal(a: string, b: string)
    requires a != b
    ensures Less(a, b) || Less(b, a)
  {
    if a != [] && b != [] && a[0] == b[0] {
      assert a == [a[0]] + a[1..] && b == [b[0]] + b[1..];
      LessTotal(a[1..], b[1..]);
    }
  }

  /** The first element of `names` in sorted order: what `sorted(names)[0]`
      picks. */
  function Least(names: seq<string>): (r: string)
    requires names != []
    ensures r in names
    ensures forall n :: n in names && n != r ==> Less(r, n)
  {
    if |names| == 1 then names[0]
    else
      var rest := Least(names[1..]);
      LeastStep(names, rest);
      if Less(names[0], rest) then names[0] else rest
  }

  /** One step of `Least`: the head against the least of the tail. */
  lemma LeastStep(names: seq<string>, rest: string)
    requires |names| > 1 && rest in names[1..]
    requires forall n :: n in names[1..] && n != rest ==> Less(rest, n)
    ensures Less(names[0], rest) ==> forall n :: n in names && n != names[0] ==> Less(names[0], n)
    ensures !Less(names[0], rest) ==> forall n :: n in names && n != rest ==> Less(rest, n)
  {
    if Less(names[0], rest) {
      forall n | n in names && n != names[0]
        ensures Less(names[0], n)
      {
        if n != rest {
          assert n in names[1..];
          LessTransitive(names[0], rest, n);
        }
      }
    } else if names[0] != rest {
      LessTotal(names[0], rest);
    }
  }

  /** `sep.join(parts)`. */
  function Join(parts: seq<string>, sep: string): string {
    if parts == [] then ""
    else if |parts| == 1 then parts[0]
    else parts[0] + sep + Join(parts[1..], sep)
  }

  /** The elements of `xs` that satisfy `f`, in their order. */
  function Filter<T(==,!new)>(xs: seq<T>, f: T -> bool): (r: seq<T>)
    ensures |r| <= |xs|
    ensures forall x :: x in r <==> x in xs && f(x)
  {
    if xs == [] then []
    else
      var rest := Filter(xs[1..], f);
      assert forall x :: x in xs <==> x == xs[0] || x in xs[1..];
      if f(xs[0]) then [xs[0]] + rest else rest
  }
}
