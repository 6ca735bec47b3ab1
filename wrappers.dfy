/** Optional values, used for Python's `None` and for every lookup or
    indexing that raises in the source. */
module Wrappers {
  datatype Option<T> = None | Some(value: T)

  /** A loop that builds one entry per element and raises at the first
      entry it cannot build: every entry, or `None` when one fails. */
  function Collect<T>(xs: seq<Option<T>>): (r: Option<seq<T>>)
    ensures r.None? <==> exists j :: 0 <= j < |xs| && xs[j].None?
    ensures r.Some? ==> |r.value| == |xs| && forall j :: 0 <= j < |xs| ==> xs[j] == Some(r.value[j])
  {
    if xs == [] then Some([])
    else
      var init := xs[..|xs| - 1];
      assert forall j :: 0 <= j < |init| ==> init[j] == xs[j];
      match Collect(init)
      case None => None
      case Some(l) =>
        match xs[|xs| - 1]
        case None => None
        case Some(x) => Some(l + [x])
  }

  /** One more entry built. */
  lemma {:induction false} CollectSnoc<T>(xs: seq<Option<T>>, l: seq<T>, x: T)
    requires Collect(xs) == Some(l)
    ensures Collect(xs + [Some(x)]) == Some(l + [x])
  {
    assert (xs + [Some(x)])[..|xs|] == xs;
  }
}
