/** Optional values: Python's `None` versus a present value, NumPy's NaN
    versus a number, and a script step that may produce nothing. */
module Options {

  datatype Option<+T> = None | Some(value: T)

  /** Outcome of a step that can raise and abort the whole script. */
  datatype Result<+T> = Ok(value: T) | Raised(reason: string)

  /** `[r for r in results if r is not None]`, in order. */
  function Somes<T>(opts: seq<Option<T>>): (r: seq<T>)
    ensures |r| <= |opts|
  {
    if opts == [] then []
    else
      var n := |opts| - 1;
      Somes(opts[..n]) + (if opts[n].Some? then [opts[n].value] else [])
  }

  /** Appending one result extends the filtered list by at most that value. */
  lemma SomesSnoc<T>(opts: seq<Option<T>>, o: Option<T>)
    ensures Somes(opts + [o]) == Somes(opts) + (if o.Some? then [o.value] else [])
  {
    assert (opts + [o])[..|opts|] == opts;
  }

  lemma {:induction false} SomesMembership<T>(opts: seq<Option<T>>, x: T)
    ensures x in Somes(opts) <==> Some(x) in opts
  {
    if opts != [] {
      var n := |opts| - 1;
      SomesMembership(opts[..n], x);
      assert opts == opts[..n] + [opts[n]];
    }
  }

  /** Dropping the `None`s is empty exactly when every entry is `None`. */
  lemma SomesEmpty<T>(opts: seq<Option<T>>)
    ensures Somes(opts) == [] <==> forall i :: 0 <= i < |opts| ==> opts[i].None?
  {
    if Somes(opts) == [] {
      forall i | 0 <= i < |opts|
        ensures opts[i].None?
      {
        if opts[i].Some? {
          SomesMembership(opts, opts[i].value);
        }
      }
    } else {
      SomesMembership(opts, Somes(opts)[0]);
    }
  }
}
