/** Outcome types that replace the scraper's fatal `exit()` paths. */
module Results {

  datatype Option<T> = None | Some(value: T)

  /** The reasons a scraping run stops before writing anything. */
  datatype Failure =
    | FetchFailed(url: string)  // the page could not be fetched (connection, scheme or HTTP error)
    | NoAnchor(text: string)    // a kept number cell has no link element
    | NoHref(text: string)      // a kept number cell's link has no target
    | BadCode(text: string)     // a paired number text is not an integer
    | NoMunicipalities          // the listing page yielded no municipality

  datatype Result<T> = Ok(value: T) | Err(error: Failure)

  /** The values of a sequence of outcomes, in order, or the first failure among them: the
      shape of a loop that stops at its first failing step. */
  function Collect<T>(rs: seq<Result<T>>): Result<seq<T>>
  {
    if rs == [] then Ok([])
    else
      match Collect(rs[..|rs| - 1])
      case Err(e) => Err(e)
      case Ok(vs) =>
        match rs[|rs| - 1]
        case Err(e) => Err(e)
        case Ok(v) => Ok(vs + [v])
  }

  /** Collecting succeeds exactly when every outcome is a success. */
  lemma {:induction false} CollectSucceeds<T>(rs: seq<Result<T>>)
    ensures Collect(rs).Ok? <==> forall i :: 0 <= i < |rs| ==> rs[i].Ok?
  {
    if rs != [] {
      var init := rs[..|rs| - 1];
      CollectSucceeds(init);
      assert forall i :: 0 <= i < |init| ==> init[i] == rs[i];
    }
  }

  /** On success, value i of the collection is the value of outcome i. */
  lemma {:induction false} CollectValues<T>(rs: seq<Result<T>>)
    requires Collect(rs).Ok?
    ensures |Collect(rs).value| == |rs|
    ensures forall i :: 0 <= i < |rs| ==> rs[i].Ok? && Collect(rs).value[i] == rs[i].value
  {
    if rs != [] {
      var init := rs[..|rs| - 1];
      CollectValues(init);
      assert forall i :: 0 <= i < |init| ==> init[i] == rs[i];
    }
  }

  /** Once a prefix fails, the whole collection fails the same way. */
  lemma {:induction false} CollectErrorSticks<T>(rs: seq<Result<T>>, k: nat)
    requires k <= |rs| && Collect(rs[..k]).Err?
    ensures Collect(rs) == Collect(rs[..k])
    decreases |rs| - k
  {
    if k < |rs| {
      var init := rs[..|rs| - 1];
      assert init[..k] == rs[..k];
      CollectErrorSticks(init, k);
    } else {
      assert rs[..k] == rs;
    }
  }

  /** Collecting one more outcome after a successful prefix. */
  lemma CollectStep<T>(rs: seq<Result<T>>, i: nat, vs: seq<T>)
    requires i < |rs| && Collect(rs[..i]) == Ok(vs)
    ensures Collect(rs[..i + 1]) ==
      match rs[i]
      case Err(e) => Err(e)
      case Ok(v) => Ok(vs + [v])
  {
    assert rs[..i + 1][..i] == rs[..i];
  }
}
