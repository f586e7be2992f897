/** An optional value: the sources' `null`/`undefined` results. */
module Maybe {
  datatype Option<+T> = None | Some(value: T)

  /** The values present in a sequence of results, in order. */
  function Present<T>(os: seq<Option<T>>): (r: seq<T>)
    ensures |r| <= |os|
  {
    if os == [] then []
    else
      var n := |os| - 1;
      Present(os[..n]) + (if os[n].Some? then [os[n].value] else [])
  }

  /** A value is present exactly when some result holds it. */
  lemma {:induction false} PresentMembers<T>(os: seq<Option<T>>, x: T)
    ensures x in Present(os) <==> exists k :: 0 <= k < |os| && os[k] == Some(x)
  {
    if os != [] {
      var n := |os| - 1;
      var init := os[..n];
      PresentMembers(init, x);
      if exists k :: 0 <= k < |os| && os[k] == Some(x) {
        var k :| 0 <= k < |os| && os[k] == Some(x);
        if k < n {
          assert init[k] == os[k];
        }
      }
      if exists k :: 0 <= k < |init| && init[k] == Some(x) {
        var k :| 0 <= k < |init| && init[k] == Some(x);
        assert os[k] == init[k];
      }
    }
  }
}
