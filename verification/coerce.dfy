/** Cardinality coercion (main.go `toStringSlice`, `toInterfaceSlice`): an element that
    occurred once in the source XML arrives as a bare string or object and is turned
    back into a list. */
module Coerce {
  import opened Wrappers
  import opened Json

  /** The string elements of `xs`, in their order; every other element is dropped. */
  function Strings(xs: seq<J>): seq<string>
  {
    if xs == [] then []
    else (if xs[0].JStr? then [xs[0].s] else []) + Strings(xs[1..])
  }

  /** `Strings` distributes over concatenation; with the two one-element cases below
      this pins it down as "keep exactly the strings, in order". */
  lemma {:induction false} StringsAppend(a: seq<J>, b: seq<J>)
    ensures Strings(a + b) == Strings(a) + Strings(b)
  {
    if a == [] {
      assert a + b == b;
    } else {
      assert (a + b)[0] == a[0];
      assert (a + b)[1..] == a[1..] + b;
      StringsAppend(a[1..], b);
    }
  }

  lemma StringsSingleton(x: J)
    ensures Strings([x]) == (if x.JStr? then [x.s] else [])
  {
    assert [x][1..] == [];
  }

  /** The list of strings as it is stored back into the document. */
  function StrList(ss: seq<string>): (r: seq<J>)
    ensures |r| == |ss|
    ensures forall i :: 0 <= i < |ss| ==> r[i] == JStr(ss[i])
  {
    if ss == [] then [] else [JStr(ss[0])] + StrList(ss[1..])
  }

  /** A list of strings keeps every element. */
  lemma {:induction false} StringsOfStrList(ss: seq<string>)
    ensures Strings(StrList(ss)) == ss
  {
    if ss != [] {
      assert StrList(ss)[1..] == StrList(ss[1..]);
      StringsOfStrList(ss[1..]);
    }
  }

  /** What `toStringSlice` returns for `v`: a list keeps its string elements, a bare string
      becomes a one-element list, and everything else is `nil` (`None`). */
  function StringSliceOf(v: J): Option<seq<string>>
  {
    match v
    case JArr(xs) => Some(Strings(xs))
    case JStr(s) => Some([s])
    case _ => None
  }

  /** main.go `toStringSlice`: the loop appends each string element in turn. */
  method ToStringSlice(v: J) returns (r: Option<seq<string>>)
    ensures r == StringSliceOf(v)
  {
    match v {
      case JArr(xs) =>
        var res: seq<string> := [];
        var i := 0;
        while i < |xs|
          invariant 0 <= i <= |xs|
          invariant res == Strings(xs[..i])
        {
          if xs[i].JStr? {
            res := res + [xs[i].s];
          }
          StringsAppend(xs[..i], [xs[i]]);
          StringsSingleton(xs[i]);
          assert xs[..i + 1] == xs[..i] + [xs[i]];
          i := i + 1;
        }
        assert xs[..i] == xs;
        r := Some(res);
      case JStr(s) =>
        r := Some([s]);
      case _ =>
        r := None;
    }
  }

  /** The coerced value as it is written back into the map: a `[]string`, or `nil`. */
  function StoreStrings(r: Option<seq<string>>): (j: J)
    ensures r.Some? ==> j.JArr? && Strings(j.elems) == r.value
    ensures r.Some? ==> |j.elems| == |r.value| &&
                        forall i :: 0 <= i < |r.value| ==> j.elems[i] == JStr(r.value[i])
    ensures r.None? ==> j == JNull
  {
    match r
    case Some(ss) => StringsOfStrList(ss); JArr(StrList(ss))
    case None => JNull
  }

  /** Coercing a value already written back by the coercion gives the same list again. */
  lemma StringSliceIdempotent(v: J)
    ensures StringSliceOf(StoreStrings(StringSliceOf(v))) == StringSliceOf(v)
  {
  }

  /** A bare string and a one-element list holding it coerce alike. */
  lemma StringSliceSingleton(s: string)
    ensures StringSliceOf(JStr(s)) == StringSliceOf(JArr([JStr(s)])) == Some([s])
  {
    StringsSingleton(JStr(s));
  }

  /** main.go `toInterfaceSlice`: a list is returned as it is, a single object becomes a
      one-element list, and anything else (a bare string included) is `nil`. */
  function ToInterfaceSlice(v: J): (r: Option<seq<J>>)
    ensures r.Some? <==> (v.JArr? || v.JObj?)
    ensures v.JArr? ==> r.value == v.elems
    ensures v.JObj? ==> r.value == [v]
  {
    match v
    case JArr(xs) => Some(xs)
    case JObj(_) => Some([v])
    case _ => None
  }

  /** The coerced value as it is written back into the map: a `[]interface{}`, or `nil`. */
  function StoreList(r: Option<seq<J>>): (j: J)
    ensures r.Some? ==> j == JArr(r.value)
    ensures r.None? ==> j == JNull
  {
    match r
    case Some(xs) => JArr(xs)
    case None => JNull
  }

  /** Coercing a value already written back by the coercion changes nothing more. */
  lemma InterfaceSliceIdempotent(v: J)
    ensures StoreList(ToInterfaceSlice(StoreList(ToInterfaceSlice(v)))) == StoreList(ToInterfaceSlice(v))
  {
  }

  /** A single object and a one-element list holding it coerce alike. */
  lemma InterfaceSliceSingleton(m: map<string, J>)
    ensures ToInterfaceSlice(JObj(m)) == ToInterfaceSlice(JArr([JObj(m)]))
  {
  }
}
