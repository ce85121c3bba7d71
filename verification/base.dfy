/** Small shared vocabulary: an optional value, the "first n elements"
    cap that both the backend (`[:10]`) and the pages (`slice(0, 5)`) use,
    and the last value present in a run of optional values. */
module Base {

  /** A value that may be absent: JSON `null`/missing key, Python `None`,
      JavaScript `null`/`undefined`/`NaN`. */
  datatype Option<+T> = None | Some(value: T) {

    /** The value, or `default` when absent. */
    function GetOr(default: T): T {
      match this
      case Some(v) => v
      case None => default
    }
  }

  /** The first `n` elements of `s`, or all of `s` when it is shorter:
      Python `s[:n]` and JavaScript `s.slice(0, n)` for `n >= 0`. */
  function Take<T>(s: seq<T>, n: nat): (r: seq<T>)
    ensures |r| <= n && |r| <= |s|
    ensures |r| == n || |r| == |s|
    ensures r == s[..|r|]
  {
    if |s| <= n then s else s[..n]
  }

  /** Taking at least as many elements as there are is the identity. */
  lemma TakeAll<T>(s: seq<T>, n: nat)
    requires |s| <= n
    ensures Take(s, n) == s
  {
  }

  /** The last present value of `rs`, or `None` when none is present: what a
      page shows after a run of loads that each keep the previous value on
      failure. */
  function LastSome<T>(rs: seq<Option<T>>): (r: Option<T>)
    ensures r.Some? <==> exists k :: 0 <= k < |rs| && rs[k].Some?
    ensures r.Some? ==> r in rs
    ensures |rs| > 0 && rs[|rs| - 1].Some? ==> r == rs[|rs| - 1]
  {
    if rs == [] then None
    else if rs[|rs| - 1].Some? then rs[|rs| - 1]
    else
      var prior := rs[..|rs| - 1];
      assert forall k :: 0 <= k < |prior| ==> prior[k] == rs[k];
      LastSome(prior)
  }
}
