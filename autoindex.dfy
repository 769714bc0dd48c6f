/** The auto-index configuration and its pagination (nodes.py:119-145): the
    `autoindex` setting is normalised into a list of bucket specifications,
    each with a child pattern, a target file-name template, a layout and a
    page size, and the matching children are sliced into pages. */
module AutoIndex {
  import opened Values

  /** One normalised bucket specification, `conf` in the source. */
  type Spec = Mapping

  /** A list element of `autoindex`: a string is a layout name, a mapping is
      taken as it is; anything else makes `conf.get` raise. */
  function NormaliseSpec(v: Value): Option<Spec> {
    match v
    case Str(_) => Some(map["layout" := v])
    case Dict(m) => Some(m)
    case _ => None
  }

  /** The normalised list of a list-valued `autoindex`, or the first element
      on which the source raises. */
  function NormaliseList(items: seq<Value>): (r: Result<seq<Spec>, Value>)
    ensures r.Ok? <==> forall i :: 0 <= i < |items| ==> NormaliseSpec(items[i]).Some?
    ensures r.Ok? ==> |r.value| == |items| &&
                      forall i :: 0 <= i < |items| ==> r.value[i] == NormaliseSpec(items[i]).value
    ensures r.Err? ==> r.error in items && NormaliseSpec(r.error).None?
  {
    if items == [] then Ok([])
    else
      match NormaliseSpec(items[0])
      case None => Err(items[0])
      case Some(spec) =>
        var rest := NormaliseList(items[1..]);
        if rest.Err? then
          assert forall i :: 0 < i < |items| ==> items[i] == items[1..][i - 1];
          Err(rest.error)
        else
          assert forall i :: 0 < i < |items| ==> items[i] == items[1..][i - 1];
          Ok([spec] + rest.value)
  }

  /** The bucket specifications of an `autoindex` setting: a string becomes
      `[{'layout': s}]`, a mapping `[mapping]`, a list is normalised element
      by element, and any other value yields no specification at all. */
  function NormaliseSpecs(autoindex: Value): (r: Result<seq<Spec>, Value>)
    ensures autoindex.Str? ==> r == Ok([map["layout" := autoindex]])
    ensures autoindex.Dict? ==> r == Ok([autoindex.fields])
    ensures autoindex.List? ==> r == NormaliseList(autoindex.items)
    ensures !(autoindex.Str? || autoindex.Dict? || autoindex.List?) ==> r == Ok([])
  {
    var confs := if autoindex.Str? then List([Dict(map["layout" := autoindex])]) else autoindex;
    var confs' := if confs.Dict? then List([confs]) else confs;
    if confs'.List? then
      var r := NormaliseList(confs'.items);
      assert r.Ok? && |confs'.items| == 1 ==> r.value == [r.value[0]];
      r
    else Ok([])
  }

  /** `conf.get('source', '*')`. */
  function SpecSource(spec: Spec): Value {
    GetOr(spec, "source", Str("*"))
  }

  /** `conf.get('target', 'index.html')`. */
  function SpecTarget(spec: Spec): Value {
    GetOr(spec, "target", Str("index.html"))
  }

  /** `conf.get('layout', 'index.html')`. */
  function SpecLayout(spec: Spec): Value {
    GetOr(spec, "layout", Str("index.html"))
  }

  /** The page size of `conf.get('pagenate', 1)`: a positive int is kept,
      anything else becomes 1. A bool is an int in Python: `True` is 1 and
      `False` is not positive, so both come out as 1. */
  function PageSize(v: Value): (p: nat)
    ensures p >= 1
    ensures v.Int? && v.i > 0 ==> p == v.i
    ensures !(v.Int? && v.i > 0) ==> p == 1
  {
    match v
    case Int(i) => if i <= 0 then 1 else i
    case Bool(b) => 1
    case _ => 1
  }

  function SpecPageSize(spec: Spec): (p: nat)
    ensures p >= 1
  {
    PageSize(GetOr(spec, "pagenate", Int(1)))
  }

  /** A layout-name string stands for a specification with that layout and
      every other field at its default. */
  lemma SpecDefaults(s: string)
    ensures NormaliseSpecs(Str(s)).Ok?
    ensures var spec := NormaliseSpecs(Str(s)).value[0];
            && SpecLayout(spec) == Str(s)
            && SpecSource(spec) == Str("*")
            && SpecTarget(spec) == Str("index.html")
            && SpecPageSize(spec) == 1
    ensures SpecLayout(map[]) == Str("index.html")
  {
  }

  /** `math.ceil(n / p)`, the number of pages. */
  function CeilDiv(n: nat, p: nat): nat
    requires p >= 1
  {
    (n + p - 1) / p
  }

  /** `CeilDiv` is the least number of pages of size `p` that hold `n`
      items. */
  lemma CeilDivBounds(n: nat, p: nat)
    requires p >= 1
    ensures CeilDiv(n, p) * p >= n
    ensures CeilDiv(n, p) > 0 ==> (CeilDiv(n, p) - 1) * p < n
    ensures CeilDiv(n, p) == 0 <==> n == 0
  {
    var c := CeilDiv(n, p);
    var r := (n + p - 1) % p;
    assert c * p + r == n + p - 1;
    assert 0 <= r < p;
    if c > 0 {
      assert (c - 1) * p == c * p - p;
    }
  }

  /** The offset of page `k` lies inside the children. */
  lemma PageOffset(n: nat, p: nat, k: nat)
    requires p >= 1 && k < CeilDiv(n, p)
    ensures k * p < n
  {
    CeilDivBounds(n, p);
    var c := CeilDiv(n, p);
    assert k <= c - 1;
    assert k * p <= (c - 1) * p by {
      MulMonotone(k, c - 1, p);
    }
  }

  lemma MulMonotone(a: nat, b: nat, p: nat)
    requires a <= b
    ensures a * p <= b * p
  {
  }

  function Min(a: int, b: int): int {
    if a <= b then a else b
  }

  /** One auto-index page: its members, its number and the page count. */
  datatype Bucket<T> = Bucket(members: seq<T>, num: nat, max: nat)

  /** Page `k` holds `children[k*p : k*p+p]`, numbered `k`, of
      `ceil(n/p)` pages. */
  function BucketAt<T>(xs: seq<T>, p: nat, k: nat): Bucket<T>
    requires p >= 1 && k < CeilDiv(|xs|, p)
  {
    PageOffset(|xs|, p, k);
    Bucket(xs[k * p .. Min(k * p + p, |xs|)], k, CeilDiv(|xs|, p))
  }

  /** The pages of `children` at page size `p`. */
  function Buckets<T>(xs: seq<T>, p: nat): (bs: seq<Bucket<T>>)
    requires p >= 1
    ensures |bs| == CeilDiv(|xs|, p)
  {
    seq(CeilDiv(|xs|, p), k requires 0 <= k < CeilDiv(|xs|, p) => BucketAt(xs, p, k))
  }

  /** The loop `for i in range(0, len(children), p)` of
      `auto_index_pages`, one page per offset. */
  method Paginate<T>(xs: seq<T>, p: nat) returns (bs: seq<Bucket<T>>)
    requires p >= 1
    ensures bs == Buckets(xs, p)
  {
    var total := CeilDiv(|xs|, p);
    CeilDivBounds(|xs|, p);
    bs := [];
    var i := 0;
    ghost var k := 0;
    while i < |xs|
      invariant i == k * p && k == |bs|
      invariant k <= total
      invariant i < |xs| ==> k < total
      invariant forall j :: 0 <= j < k ==> bs[j] == BucketAt(xs, p, j)
      decreases |xs| - i
    {
      assert i / p == k by {
        DivOfMultiple(k, p);
      }
      PageOffset(|xs|, p, k);
      bs := bs + [Bucket(xs[i .. Min(i + p, |xs|)], i / p, total)];
      i := i + p;
      k := k + 1;
      MulSucc(k - 1, p);
      if i < |xs| {
        OffsetInside(|xs|, p, k);
      }
    }
    assert k == total by {
      if k < total {
        PageOffset(|xs|, p, k);
      }
    }
  }

  lemma DivOfMultiple(k: nat, p: nat)
    requires p >= 1
    ensures (k * p) / p == k
  {
    var q, r := (k * p) / p, (k * p) % p;
    assert k * p == q * p + r && 0 <= r < p;
  }

  lemma MulSucc(k: nat, p: nat)
    ensures (k + 1) * p == k * p + p
  {
  }

  /** An offset inside the children is the offset of some page. */
  lemma OffsetInside(n: nat, p: nat, k: nat)
    requires p >= 1 && k * p < n
    ensures k < CeilDiv(n, p)
  {
    CeilDivBounds(n, p);
    if k >= CeilDiv(n, p) {
      MulMonotone(CeilDiv(n, p), k, p);
    }
  }

  function Flatten<T>(bs: seq<Bucket<T>>): seq<T> {
    if bs == [] then [] else bs[0].members + Flatten(bs[1..])
  }

  lemma {:induction false} FlattenAppend<T>(bs: seq<Bucket<T>>, b: Bucket<T>)
    ensures Flatten(bs + [b]) == Flatten(bs) + b.members
  {
    if bs == [] {
      assert [b][1..] == [];
    } else {
      assert (bs + [b])[1..] == bs[1..] + [b];
      FlattenAppend(bs[1..], b);
    }
  }

  /** Concatenating the pages gives back the children, in order. */
  lemma BucketsFlatten<T>(xs: seq<T>, p: nat)
    requires p >= 1
    ensures Flatten(Buckets(xs, p)) == xs
  {
    var bs := Buckets(xs, p);
    var total := |bs|;
    var k, off := 0, 0;
    while k < total
      invariant 0 <= k <= total && off == k * p
      invariant Flatten(bs[..k]) == xs[..Min(off, |xs|)]
    {
      PageOffset(|xs|, p, k);
      var next := Min(off + p, |xs|);
      assert bs[k].members == xs[off..next];
      assert bs[..k + 1] == bs[..k] + [bs[k]];
      FlattenAppend(bs[..k], bs[k]);
      assert xs[..off] + xs[off..next] == xs[..next];
      MulSucc(k, p);
      k, off := k + 1, off + p;
    }
    CeilDivBounds(|xs|, p);
    assert bs[..total] == bs;
  }

  /** Every page has between one and `p` members, and all but the last
      exactly `p`. */
  lemma BucketSizes<T>(xs: seq<T>, p: nat)
    requires p >= 1
    ensures var bs := Buckets(xs, p);
            forall k :: 0 <= k < |bs| ==>
              && 1 <= |bs[k].members| <= p
              && (k < |bs| - 1 ==> |bs[k].members| == p)
              && bs[k].num == k && bs[k].max == |bs|
  {
    var bs := Buckets(xs, p);
    forall k | 0 <= k < |bs|
      ensures 1 <= |bs[k].members| <= p
      ensures k < |bs| - 1 ==> |bs[k].members| == p
    {
      PageOffset(|xs|, p, k);
      if k < |bs| - 1 {
        PageOffset(|xs|, p, k + 1);
        assert (k + 1) * p == k * p + p;
      }
    }
  }

  /** Seven children at page size three make three pages of 3, 3 and 1
      members, numbered 0, 1 and 2, each knowing there are 3 pages. */
  lemma SevenByThree(xs: seq<int>)
    requires |xs| == 7
    ensures var bs := Buckets(xs, 3);
            && |bs| == 3
            && |bs[0].members| == 3 && |bs[1].members| == 3 && |bs[2].members| == 1
            && bs[0].num == 0 && bs[1].num == 1 && bs[2].num == 2
            && bs[0].max == 3 && bs[1].max == 3 && bs[2].max == 3
  {
    assert CeilDiv(7, 3) == 3;
  }
}
